/** Keeping the table of loaded libraries in step with the memory map: areas are merged by
    module, entries whose module is gone are unloaded, new ELF images are loaded, and the
    client is told of each by an event at the front of the queue. */
module DllMovements {
  import opened DebugEvents
  import opened LeastElement
  import opened ThreadMachine

  datatype Area = Area(start: word, end: word, name: Text)

  datatype Image = Image(base: word, size: word, fname: Text)

  // elf holds the readable addresses with an ELF header.
  datatype Config = Config(process: Tid, isDll: bool, inputFile: Text, elf: set<word>)

  datatype Table = Table(events: seq<Event>, dlls: map<word, Image>, toImport: set<word>)

  // find_dll
  function FindDll(miv: seq<Area>, name: Text, i: nat): (r: Option<nat>)
    requires i <= |miv|
    ensures r.Some? ==> i <= r.value < |miv| && miv[r.value].name == name
    ensures r.None? ==> forall j :: i <= j < |miv| ==> miv[j].name != name
    decreases |miv| - i
  {
    if i == |miv| then None else if miv[i].name == name then Some(i) else FindDll(miv, name, i + 1)
  }

  function Extend(a: Area, ea: word): Area {
    a.(start := if a.start > ea then ea else a.start, end := if a.end < ea then ea else a.end)
  }

  function MergeOne(miv: seq<Area>, src: Area): seq<Area> {
    match FindDll(miv, src.name, 0)
    case Some(i) => miv[i := Extend(Extend(miv[i], src.start), src.end)]
    case None => miv + [src]
  }

  function MergeAll(miv: seq<Area>, raw: seq<Area>): seq<Area>
    decreases |raw|
  {
    if raw == [] then miv else MergeAll(MergeOne(miv, raw[0]), raw[1..])
  }

  function LoadEvent(cfg: Config, base: word, size: word, name: Text): Event {
    var rebase := if cfg.isDll && cfg.inputFile == name then base else BADADDR;
    Event(LIBRARY_LOAD, cfg.process, cfg.process, base, true, Module(ModuleInfo(name, base, size, rebase)))
  }

  function UnloadEvent(cfg: Config, name: Text): Event {
    Event(LIBRARY_UNLOAD, cfg.process, cfg.process, BADADDR, true, Info(name))
  }

  // One entry of the table: dropped if its module is no longer mapped.
  function UnloadOne(t: Table, k: word, miv: seq<Area>, cfg: Config): Table
    requires k in t.dlls
  {
    var name := t.dlls[k].fname;
    if FindDll(miv, name, 0).Some? then t
    else
      var left := DelPendingEvent(t.events, LIBRARY_LOAD, name);
      t.(events := if |left| < |t.events| then left else [UnloadEvent(cfg, name)] + t.events,
         dlls := t.dlls - {k})
  }

  ghost function UnloadAll(t: Table, todo: set<word>, miv: seq<Area>, cfg: Config): Table
    requires todo <= t.dlls.Keys
    decreases |todo|
  {
    if todo == {} then t
    else
      var k := Least(todo);
      UnloadAll(UnloadOne(t, k, miv, cfg), todo - {k}, miv, cfg)
  }

  // Is area i one to register?
  predicate Eligible(a: Area, cfg: Config) {
    a.name != [] && (cfg.isDll || a.name != cfg.inputFile) && a.start in cfg.elf
  }

  function RunEnd(miv: seq<Area>, i: nat): word
    requires i < |miv|
    decreases |miv| - i
  {
    if i + 1 < |miv| && miv[i + 1].name == miv[i].name then RunEnd(miv, i + 1) else miv[i].end
  }

  // calc_module_size
  function ModuleSize(miv: seq<Area>, i: nat): word
    requires i < |miv|
  {
    if miv[i].end == 0 then 0 else (RunEnd(miv, i) - miv[i].start) % TWO_32
  }

  function AddDll(t: Table, base: word, size: word, name: Text, cfg: Config): Table {
    Table([LoadEvent(cfg, base, size, name)] + t.events, t.dlls[base := Image(base, size, name)], t.toImport + {base})
  }

  function LoadOne(t: Table, miv: seq<Area>, i: nat, cfg: Config): Table
    requires i < |miv|
  {
    if miv[i].start in t.dlls || !Eligible(miv[i], cfg) then t
    else AddDll(t, miv[i].start, ModuleSize(miv, i), miv[i].name, cfg)
  }

  function LoadAll(t: Table, miv: seq<Area>, i: nat, cfg: Config): Table
    requires i <= |miv|
    decreases |miv| - i
  {
    if i == |miv| then t else LoadAll(LoadOne(t, miv, i, cfg), miv, i + 1, cfg)
  }

  ghost function Handled(t: Table, raw: seq<Area>, cfg: Config): Table {
    var miv := MergeAll([], raw);
    LoadAll(UnloadAll(t, t.dlls.Keys, miv, cfg), miv, 0, cfg)
  }

  // ---------------------------------------------------------------- merging

  predicate Named(miv: seq<Area>, name: Text) {
    exists i :: 0 <= i < |miv| && miv[i].name == name
  }

  predicate Contains(a: Area, b: Area) {
    a.name == b.name && a.start <= b.start && b.end <= a.end
  }

  ghost predicate DistinctNames(miv: seq<Area>) {
    forall i, j :: 0 <= i < j < |miv| ==> miv[i].name != miv[j].name
  }

  ghost predicate Covered(miv: seq<Area>, b: Area) {
    exists i :: 0 <= i < |miv| && Contains(miv[i], b)
  }

  lemma MergeOneFacts(miv: seq<Area>, src: Area, b: Area)
    requires DistinctNames(miv) && (Covered(miv, b) || b == src)
    ensures DistinctNames(MergeOne(miv, src)) && Covered(MergeOne(miv, src), b)
  {
    var r := MergeOne(miv, src);
    match FindDll(miv, src.name, 0)
    case Some(i) =>
      if Covered(miv, b) {
        var j :| 0 <= j < |miv| && Contains(miv[j], b);
        assert Contains(r[j], b);
      } else {
        assert Contains(r[i], b);
      }
    case None =>
      if Covered(miv, b) {
        var j :| 0 <= j < |miv| && Contains(miv[j], b);
        assert Contains(r[j], b);
      } else {
        assert Contains(r[|miv|], b);
      }
  }

  /** Merging leaves one area for each module name, which covers all areas of that name. */
  lemma {:induction false} MergeCovers(miv: seq<Area>, raw: seq<Area>, b: Area)
    requires DistinctNames(miv) && (Covered(miv, b) || b in raw)
    ensures DistinctNames(MergeAll(miv, raw)) && Covered(MergeAll(miv, raw), b)
    decreases |raw|
  {
    if raw != [] {
      if b in raw && b != raw[0] { assert b in raw[1..]; }
      if !Covered(miv, b) && b != raw[0] {
        MergeDistinct(miv, raw[0]);
      } else {
        MergeOneFacts(miv, raw[0], b);
      }
      MergeCovers(MergeOne(miv, raw[0]), raw[1..], b);
    }
  }

  lemma MergeDistinct(miv: seq<Area>, src: Area)
    requires DistinctNames(miv)
    ensures DistinctNames(MergeOne(miv, src))
  {
    MergeOneFacts(miv, src, src);
  }

  // Merging makes up no names.
  lemma {:induction false} MergeNames(miv: seq<Area>, raw: seq<Area>, name: Text)
    requires Named(MergeAll(miv, raw), name)
    ensures Named(miv, name) || exists b :: b in raw && b.name == name
    decreases |raw|
  {
    if raw != [] {
      MergeNames(MergeOne(miv, raw[0]), raw[1..], name);
      if Named(MergeOne(miv, raw[0]), name) {
        var r := MergeOne(miv, raw[0]);
        var i :| 0 <= i < |r| && r[i].name == name;
        if i < |miv| { assert miv[i].name == name; } else { assert raw[0].name == name; }
      } else {
        var b :| b in raw[1..] && b.name == name;
        assert b in raw;
      }
    }
  }

  // ---------------------------------------------------------------- agreement

  lemma FindNamed(miv: seq<Area>, name: Text)
    ensures FindDll(miv, name, 0).Some? <==> Named(miv, name)
  {
  }

  lemma {:induction false} UnloadAllFacts(t: Table, todo: set<word>, miv: seq<Area>, cfg: Config)
    requires todo <= t.dlls.Keys
    ensures var r := UnloadAll(t, todo, miv, cfg);
            && r.toImport == t.toImport
            && (forall k :: k in r.dlls <==> k in t.dlls && (k in todo ==> Named(miv, t.dlls[k].fname)))
            && (forall k :: k in r.dlls ==> r.dlls[k] == t.dlls[k])
            && ((forall k :: k in todo ==> Named(miv, t.dlls[k].fname)) ==> r == t)
    decreases |todo|
  {
    if todo != {} {
      var k := Least(todo);
      FindNamed(miv, t.dlls[k].fname);
      UnloadAllFacts(UnloadOne(t, k, miv, cfg), todo - {k}, miv, cfg);
    }
  }

  lemma {:induction false} LoadAllFacts(t: Table, miv: seq<Area>, i: nat, cfg: Config)
    requires i <= |miv|
    ensures var r := LoadAll(t, miv, i, cfg);
            && (forall k :: k in t.dlls ==> k in r.dlls && r.dlls[k] == t.dlls[k])
            && (forall k :: k in r.dlls && k !in t.dlls ==> Named(miv, r.dlls[k].fname))
            && (forall j :: i <= j < |miv| && Eligible(miv[j], cfg) ==> miv[j].start in r.dlls)
            && ((forall j :: i <= j < |miv| && Eligible(miv[j], cfg) ==> miv[j].start in t.dlls) ==> r == t)
    decreases |miv| - i
  {
    if i < |miv| { LoadAllFacts(LoadOne(t, miv, i, cfg), miv, i + 1, cfg); }
  }

  // Every entry's module is mapped and every eligible ELF image is registered.
  ghost predicate Agrees(t: Table, miv: seq<Area>, cfg: Config) {
    && (forall k :: k in t.dlls ==> Named(miv, t.dlls[k].fname))
    && (forall j :: 0 <= j < |miv| && Eligible(miv[j], cfg) ==> miv[j].start in t.dlls)
  }

  /** The table agrees with the merged memory map afterwards. */
  lemma HandledAgrees(t: Table, raw: seq<Area>, cfg: Config)
    ensures Agrees(Handled(t, raw, cfg), MergeAll([], raw), cfg)
  {
    var miv := MergeAll([], raw);
    UnloadAllFacts(t, t.dlls.Keys, miv, cfg);
    LoadAllFacts(UnloadAll(t, t.dlls.Keys, miv, cfg), miv, 0, cfg);
  }

  /** Handling the same map again enqueues nothing and changes nothing. */
  lemma HandledTwice(t: Table, raw: seq<Area>, cfg: Config)
    ensures Handled(Handled(t, raw, cfg), raw, cfg) == Handled(t, raw, cfg)
  {
    var miv := MergeAll([], raw);
    var r := Handled(t, raw, cfg);
    HandledAgrees(t, raw, cfg);
    UnloadAllFacts(r, r.dlls.Keys, miv, cfg);
    LoadAllFacts(r, miv, 0, cfg);
  }

  // ---------------------------------------------------------------- conservation

  predicate IsUnload(ev: Event, name: Text) {
    ev.eid == LIBRARY_UNLOAD && ev.payload == Info(name)
  }

  // Queued events for a module: LOADs count once, UNLOADs minus once.
  function EventBalance(events: seq<Event>, name: Text): int
    decreases |events|
  {
    if events == [] then 0
    else (if IsModuleEvent(events[0], LIBRARY_LOAD, name) then 1 else if IsUnload(events[0], name) then -1 else 0)
         + EventBalance(events[1..], name)
  }

  function Holders(dlls: map<word, Image>, name: Text): set<word> {
    set k | k in dlls && dlls[k].fname == name
  }

  function Entries(dlls: map<word, Image>, name: Text): nat {
    |Holders(dlls, name)|
  }

  lemma {:induction false} DropBalance(events: seq<Event>, dropped: Text, name: Text)
    ensures var left := DelPendingEvent(events, LIBRARY_LOAD, dropped);
            && |left| <= |events|
            && EventBalance(left, name)
               == EventBalance(events, name) - if |left| < |events| && name == dropped then 1 else 0
    decreases |events|
  {
    if events != [] && !IsModuleEvent(events[0], LIBRARY_LOAD, dropped) {
      DropBalance(events[1..], dropped, name);
      var left := DelPendingEvent(events[1..], LIBRARY_LOAD, dropped);
      assert ([events[0]] + left)[1..] == left;
    }
  }

  lemma PushBalance(events: seq<Event>, ev: Event, name: Text)
    ensures EventBalance([ev] + events, name) == EventBalance(events, name)
              + if IsModuleEvent(ev, LIBRARY_LOAD, name) then 1 else if IsUnload(ev, name) then -1 else 0
  {
    assert ([ev] + events)[1..] == events;
  }

  lemma EntriesRemoved(dlls: map<word, Image>, k: word, name: Text)
    requires k in dlls
    ensures Entries(dlls - {k}, name) == Entries(dlls, name) - if dlls[k].fname == name then 1 else 0
  {
    var all := Holders(dlls, name);
    assert Holders(dlls - {k}, name) == all - {k};
    if dlls[k].fname == name { assert k in all; } else { assert all - {k} == all; }
  }

  lemma EntriesAdded(dlls: map<word, Image>, k: word, im: Image, name: Text)
    requires k !in dlls
    ensures Entries(dlls[k := im], name) == Entries(dlls, name) + if im.fname == name then 1 else 0
  {
    var more := dlls[k := im];
    EntriesRemoved(more, k, name);
    assert more - {k} == dlls;
  }

  function Balance(t: Table, name: Text): int {
    EventBalance(t.events, name) - Entries(t.dlls, name)
  }

  lemma UnloadOneBalance(t: Table, k: word, miv: seq<Area>, cfg: Config, name: Text)
    requires k in t.dlls
    ensures Balance(UnloadOne(t, k, miv, cfg), name) == Balance(t, name)
  {
    var gone := t.dlls[k].fname;
    if FindDll(miv, gone, 0).None? {
      DropBalance(t.events, gone, name);
      PushBalance(t.events, UnloadEvent(cfg, gone), name);
      EntriesRemoved(t.dlls, k, name);
    }
  }

  lemma {:induction false} UnloadAllBalance(t: Table, todo: set<word>, miv: seq<Area>, cfg: Config, name: Text)
    requires todo <= t.dlls.Keys
    ensures Balance(UnloadAll(t, todo, miv, cfg), name) == Balance(t, name)
    decreases |todo|
  {
    hide Balance;
    if todo != {} {
      var k := Least(todo);
      UnloadOneBalance(t, k, miv, cfg, name);
      UnloadAllBalance(UnloadOne(t, k, miv, cfg), todo - {k}, miv, cfg, name);
    }
  }

  lemma LoadOneBalance(t: Table, miv: seq<Area>, i: nat, cfg: Config, name: Text)
    requires i < |miv|
    ensures Balance(LoadOne(t, miv, i, cfg), name) == Balance(t, name)
  {
    if miv[i].start !in t.dlls && Eligible(miv[i], cfg) {
      var base, size, new_ := miv[i].start, ModuleSize(miv, i), miv[i].name;
      PushBalance(t.events, LoadEvent(cfg, base, size, new_), name);
      EntriesAdded(t.dlls, base, Image(base, size, new_), name);
    }
  }

  lemma {:induction false} LoadAllBalance(t: Table, miv: seq<Area>, i: nat, cfg: Config, name: Text)
    requires i <= |miv|
    ensures Balance(LoadAll(t, miv, i, cfg), name) == Balance(t, name)
    decreases |miv| - i
  {
    hide Balance;
    if i < |miv| {
      LoadOneBalance(t, miv, i, cfg, name);
      LoadAllBalance(LoadOne(t, miv, i, cfg), miv, i + 1, cfg, name);
    }
  }

  /** For every module the queued LOADs less the queued UNLOADs change by exactly the change
      in the number of its table entries: the client's view stays that of the table. */
  lemma Conservation(t: Table, raw: seq<Area>, cfg: Config, name: Text)
    ensures var r := Handled(t, raw, cfg);
            EventBalance(r.events, name) - EventBalance(t.events, name) == Entries(r.dlls, name) - Entries(t.dlls, name)
  {
    var miv := MergeAll([], raw);
    UnloadAllBalance(t, t.dlls.Keys, miv, cfg, name);
    LoadAllBalance(UnloadAll(t, t.dlls.Keys, miv, cfg), miv, 0, cfg, name);
  }
}
