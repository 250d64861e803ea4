/** What handling a memory map means in terms of that map alone: the extent of a merged
    module, which modules are registered and announced, and which announcements are taken
    back or followed by an unload. */
module DllExtents {
  import opened DebugEvents
  import opened LeastElement
  import opened ThreadMachine
  import opened DllMovements

  // ---------------------------------------------------------------- extents

  // Is area i the first one of its module?
  predicate First(raw: seq<Area>, i: nat)
    requires i < |raw|
  {
    forall j :: 0 <= j < i ==> raw[j].name != raw[i].name
  }

  // The addresses the start of a module is taken from, and those its end is taken from:
  // both ends of every area except the far end of the first one.
  predicate LowMark(raw: seq<Area>, name: Text, x: word) {
    exists i :: 0 <= i < |raw| && raw[i].name == name && (x == raw[i].start || (x == raw[i].end && !First(raw, i)))
  }

  predicate HighMark(raw: seq<Area>, name: Text, x: word) {
    exists i :: 0 <= i < |raw| && raw[i].name == name && (x == raw[i].end || (x == raw[i].start && !First(raw, i)))
  }

  ghost predicate IsExtent(a: Area, raw: seq<Area>) {
    && LowMark(raw, a.name, a.start) && (forall x: word :: LowMark(raw, a.name, x) ==> a.start <= x)
    && HighMark(raw, a.name, a.end) && (forall x: word :: HighMark(raw, a.name, x) ==> x <= a.end)
  }

  lemma {:induction false} MergeLast(miv: seq<Area>, raw: seq<Area>, src: Area)
    ensures MergeAll(miv, raw + [src]) == MergeOne(MergeAll(miv, raw), src)
    decreases |raw|
  {
    if raw == [] {
      assert ([] + [src])[1..] == [];
    } else {
      assert (raw + [src])[1..] == raw[1..] + [src];
      MergeLast(MergeOne(miv, raw[0]), raw[1..], src);
    }
  }

  lemma FirstAfter(raw: seq<Area>, src: Area, i: nat)
    requires i <= |raw|
    ensures First(raw + [src], i) <==> if i < |raw| then First(raw, i) else !Named(raw, src.name)
  {
    var more := raw + [src];
    assert forall j :: 0 <= j < |raw| ==> more[j] == raw[j];
  }

  lemma LowAfter(raw: seq<Area>, src: Area, name: Text, x: word)
    ensures LowMark(raw + [src], name, x) <==>
            || LowMark(raw, name, x)
            || (name == src.name && (x == src.start || (x == src.end && Named(raw, name))))
  {
    hide First;
    var more := raw + [src];
    forall i | 0 <= i <= |raw|
      ensures more[i] == if i < |raw| then raw[i] else src
      ensures First(more, i) <==> if i < |raw| then First(raw, i) else !Named(raw, src.name)
    {
      FirstAfter(raw, src, i);
    }
    if LowMark(raw, name, x) {
      var i :| 0 <= i < |raw| && raw[i].name == name && (x == raw[i].start || (x == raw[i].end && !First(raw, i)));
      assert more[i].name == name;
    }
    if name == src.name { assert more[|raw|].name == name; }
  }

  lemma HighAfter(raw: seq<Area>, src: Area, name: Text, x: word)
    ensures HighMark(raw + [src], name, x) <==>
            || HighMark(raw, name, x)
            || (name == src.name && (x == src.end || (x == src.start && Named(raw, name))))
  {
    hide First;
    var more := raw + [src];
    forall i | 0 <= i <= |raw|
      ensures more[i] == if i < |raw| then raw[i] else src
      ensures First(more, i) <==> if i < |raw| then First(raw, i) else !Named(raw, src.name)
    {
      FirstAfter(raw, src, i);
    }
    if HighMark(raw, name, x) {
      var i :| 0 <= i < |raw| && raw[i].name == name && (x == raw[i].end || (x == raw[i].start && !First(raw, i)));
      assert more[i].name == name;
    }
    if name == src.name { assert more[|raw|].name == name; }
  }

  lemma MarksNamed(raw: seq<Area>, name: Text, x: word)
    requires LowMark(raw, name, x) || HighMark(raw, name, x)
    ensures Named(raw, name)
  {
  }

  // The extents of the modules after one more area.
  lemma ExtentAfter(a: Area, raw: seq<Area>, src: Area)
    requires IsExtent(a, raw)
    ensures IsExtent(if a.name == src.name then Extend(Extend(a, src.start), src.end) else a, raw + [src])
  {
    hide LowMark;
    hide HighMark;
    MarksNamed(raw, a.name, a.start);
    forall x: word { LowAfter(raw, src, a.name, x); }
    forall x: word { HighAfter(raw, src, a.name, x); }
  }

  lemma ExtentNew(raw: seq<Area>, src: Area)
    requires !Named(raw, src.name)
    ensures IsExtent(src, raw + [src])
  {
    hide LowMark;
    hide HighMark;
    hide Named;
    forall x: word
      ensures LowMark(raw + [src], src.name, x) <==> x == src.start
      ensures HighMark(raw + [src], src.name, x) <==> x == src.end
    {
      LowAfter(raw, src, src.name, x);
      HighAfter(raw, src, src.name, x);
      if LowMark(raw, src.name, x) || HighMark(raw, src.name, x) { MarksNamed(raw, src.name, x); }
    }
  }

  lemma NamedAfter(raw: seq<Area>, src: Area, name: Text)
    ensures Named(raw + [src], name) <==> Named(raw, name) || name == src.name
  {
    var more := raw + [src];
    if Named(raw, name) {
      var i :| 0 <= i < |raw| && raw[i].name == name;
      assert more[i].name == name;
    }
    assert more[|raw|] == src;
  }

  // Does the first area of module a come before that of module b?
  predicate Before(raw: seq<Area>, a: Text, b: Text) {
    exists i :: 0 <= i < |raw| && raw[i].name == a && forall j :: 0 <= j <= i ==> raw[j].name != b
  }

  // The merged areas: the extent of every module, in the order of their first areas.
  ghost predicate Merged(miv: seq<Area>, raw: seq<Area>) {
    && (forall i :: 0 <= i < |miv| ==> IsExtent(miv[i], raw))
    && (forall i, j :: 0 <= i < j < |miv| ==> Before(raw, miv[i].name, miv[j].name))
    && (forall name: Text :: Named(raw, name) ==> Named(miv, name))
  }

  lemma BeforeAfter(raw: seq<Area>, src: Area, a: Text, b: Text)
    requires Before(raw, a, b)
    ensures Before(raw + [src], a, b)
  {
    var more := raw + [src];
    var i :| 0 <= i < |raw| && raw[i].name == a && forall j :: 0 <= j <= i ==> raw[j].name != b;
    assert more[i].name == a && forall j :: 0 <= j <= i ==> more[j] == raw[j];
  }

  lemma BeforeNew(raw: seq<Area>, a: Text, b: Text)
    requires Named(raw, a) && !Named(raw, b)
    ensures Before(raw, a, b)
  {
  }

  lemma BeforeDiffers(raw: seq<Area>, a: Text, b: Text)
    requires Before(raw, a, b)
    ensures a != b && Named(raw, a)
  {
  }

  lemma MergedDistinct(miv: seq<Area>, raw: seq<Area>)
    requires Merged(miv, raw)
    ensures DistinctNames(miv)
  {
    hide IsExtent;
    hide Before;
    forall i, j | 0 <= i < j < |miv| ensures miv[i].name != miv[j].name {
      BeforeDiffers(raw, miv[i].name, miv[j].name);
    }
  }

  lemma MergeOneAt(miv: seq<Area>, src: Area)
    requires DistinctNames(miv)
    ensures var r, known := MergeOne(miv, src), Named(miv, src.name);
            && r[|miv|..] == (if known then [] else [src])
            && |r| >= |miv|
            && forall i :: 0 <= i < |miv| ==>
                 && r[i].name == miv[i].name
                 && r[i] == if miv[i].name == src.name then Extend(Extend(miv[i], src.start), src.end) else miv[i]
  {
    FindNamed(miv, src.name);
  }

  lemma MergedNamed(miv: seq<Area>, raw: seq<Area>, name: Text)
    requires Merged(miv, raw)
    ensures Named(miv, name) <==> Named(raw, name)
  {
    hide LowMark;
    hide HighMark;
    if Named(miv, name) {
      var i :| 0 <= i < |miv| && miv[i].name == name;
      MarksNamed(raw, name, miv[i].start);
    }
  }

  lemma MergedAfter(miv: seq<Area>, raw: seq<Area>, src: Area)
    requires Merged(miv, raw)
    ensures Merged(MergeOne(miv, src), raw + [src])
  {
    hide IsExtent;
    hide Before;
    hide Extend;
    hide MergeOne;
    var r, more := MergeOne(miv, src), raw + [src];
    MergedDistinct(miv, raw);
    MergeOneAt(miv, src);
    MergedNamed(miv, raw, src.name);
    forall i | 0 <= i < |r| ensures IsExtent(r[i], more) {
      if i < |miv| { ExtentAfter(miv[i], raw, src); } else { ExtentNew(raw, src); }
    }
    forall i, j | 0 <= i < j < |r| ensures Before(more, r[i].name, r[j].name) {
      if j == |miv| {
        MergedNamed(miv, raw, miv[i].name);
        BeforeNew(raw, miv[i].name, src.name);
      }
      BeforeAfter(raw, src, r[i].name, r[j].name);
    }
    forall name: Text | Named(more, name) ensures Named(r, name) {
      NamedAfter(raw, src, name);
      if Named(raw, name) {
        var i :| 0 <= i < |miv| && miv[i].name == name;
        assert r[i].name == name;
      }
    }
  }

  lemma {:induction false} MergedAll(raw: seq<Area>)
    ensures Merged(MergeAll([], raw), raw)
    decreases |raw|
  {
    hide Merged;
    if raw == [] {
      NothingMerged();
    } else {
      var rest, src := raw[..|raw| - 1], raw[|raw| - 1];
      assert rest + [src] == raw;
      MergedAll(rest);
      MergedAfter(MergeAll([], rest), rest, src);
      MergeLast([], rest, src);
    }
  }

  lemma NothingMerged()
    ensures Merged([], [])
  {
  }

  lemma ExtentUnique(a: Area, b: Area, raw: seq<Area>)
    requires IsExtent(a, raw) && IsExtent(b, raw) && a.name == b.name
    ensures a == b
  {
    hide LowMark;
    hide HighMark;
  }

  /** The merged areas are the extents of the modules in the map, one for each, in the order
      of their first areas. */
  lemma MergedIff(raw: seq<Area>, a: Area)
    ensures var miv := MergeAll([], raw);
            && (a in miv <==> IsExtent(a, raw)) && DistinctNames(miv)
            && (forall i, j :: 0 <= i < j < |miv| ==> Before(raw, miv[i].name, miv[j].name))
  {
    hide LowMark;
    hide HighMark;
    hide Before;
    var miv := MergeAll([], raw);
    MergedAll(raw);
    MergedDistinct(miv, raw);
    if IsExtent(a, raw) {
      MarksNamed(raw, a.name, a.start);
      var i :| 0 <= i < |miv| && miv[i].name == a.name;
      ExtentUnique(a, miv[i], raw);
    }
  }

  predicate IsPart(b: Area, raw: seq<Area>, name: Text) {
    b in raw && b.name == name
  }

  lemma PartMarks(raw: seq<Area>, b: Area)
    requires b in raw
    ensures LowMark(raw, b.name, b.start) && HighMark(raw, b.name, b.end)
  {
  }

  lemma MarkOfPart(raw: seq<Area>, name: Text, x: word) returns (b: Area)
    requires LowMark(raw, name, x) || HighMark(raw, name, x)
    requires forall b :: b in raw ==> b.start <= b.end
    ensures IsPart(b, raw, name) && b.start <= x <= b.end
  {
    var i :| 0 <= i < |raw| && raw[i].name == name && (x == raw[i].start || x == raw[i].end);
    b := raw[i];
  }

  /** For areas that do not end before they start, the extent goes from the least start to the
      greatest end of the areas of the module. */
  lemma ExtentIff(a: Area, raw: seq<Area>)
    requires forall b :: b in raw ==> b.start <= b.end
    ensures IsExtent(a, raw) <==>
            && (exists b :: IsPart(b, raw, a.name) && b.start == a.start)
            && (exists b :: IsPart(b, raw, a.name) && b.end == a.end)
            && (forall b :: IsPart(b, raw, a.name) ==> a.start <= b.start && b.end <= a.end)
  {
    hide LowMark;
    hide HighMark;
    forall b | IsPart(b, raw, a.name) { PartMarks(raw, b); }
    if IsExtent(a, raw) {
      var lo := MarkOfPart(raw, a.name, a.start);
      var hi := MarkOfPart(raw, a.name, a.end);
      assert lo.start == a.start && hi.end == a.end;
    }
    if forall b :: IsPart(b, raw, a.name) ==> a.start <= b.start && b.end <= a.end {
      forall x: word | LowMark(raw, a.name, x) || HighMark(raw, a.name, x) ensures a.start <= x <= a.end {
        var b := MarkOfPart(raw, a.name, x);
      }
    }
  }

  // ---------------------------------------------------------------- registrations

  // The size of a module that reaches over an area; 0 when its end is unknown.
  function Size(a: Area): word {
    if a.end == 0 then 0 else (a.end - a.start) % TWO_32
  }

  function Announcement(a: Area, cfg: Config): Event {
    Event(LIBRARY_LOAD, cfg.process, cfg.process, a.start, true,
          Module(ModuleInfo(a.name, a.start, Size(a),
                            if cfg.isDll && a.name == cfg.inputFile then a.start else BADADDR)))
  }

  // Is area j one that gets registered, when the areas from i on are gone through?
  predicate NewAt(t: Table, miv: seq<Area>, i: nat, j: nat, cfg: Config)
    requires i <= j < |miv|
  {
    && Eligible(miv[j], cfg) && miv[j].start !in t.dlls
    && forall k :: i <= k < j && Eligible(miv[k], cfg) ==> miv[k].start != miv[j].start
  }

  ghost predicate Announced(t: Table, miv: seq<Area>, i: nat, cfg: Config, ev: Event) {
    exists j: nat :: i <= j < |miv| && NewAt(t, miv, i, j, cfg) && ev == Announcement(miv[j], cfg)
  }

  // The queue after going through the areas from i on, with n events more.
  ghost predicate LoadedQueue(t: Table, miv: seq<Area>, i: nat, cfg: Config, events: seq<Event>, n: nat) {
    && |events| == n + |t.events| && events[n..] == t.events
    && (forall ev :: ev in events[..n] <==> Announced(t, miv, i, cfg, ev))
  }

  // The table after going through them.
  ghost predicate LoadedTable(t: Table, miv: seq<Area>, i: nat, cfg: Config, r: Table) {
    && (forall k :: k in t.dlls ==> k in r.dlls && r.dlls[k] == t.dlls[k])
    && (forall k :: k in r.dlls && k !in t.dlls ==>
          exists j: nat :: i <= j < |miv| && miv[j].start == k && NewAt(t, miv, i, j, cfg))
    && (forall j: nat :: i <= j < |miv| && NewAt(t, miv, i, j, cfg) ==>
          miv[j].start in r.dlls && r.dlls[miv[j].start] == Image(miv[j].start, Size(miv[j]), miv[j].name))
    && r.toImport == t.toImport + (r.dlls.Keys - t.dlls.Keys)
  }

  ghost predicate Loaded(t: Table, miv: seq<Area>, i: nat, cfg: Config, r: Table) {
    && |r.dlls| >= |t.dlls|
    && LoadedQueue(t, miv, i, cfg, r.events, |r.dlls| - |t.dlls|)
    && LoadedTable(t, miv, i, cfg, r)
  }

  lemma DistinctSize(miv: seq<Area>, i: nat)
    requires i < |miv| && DistinctNames(miv)
    ensures ModuleSize(miv, i) == Size(miv[i])
  {
  }

  // Area i first, then the others.
  lemma NewLater(t: Table, miv: seq<Area>, i: nat, j: nat, cfg: Config)
    requires i < j < |miv| && DistinctNames(miv)
    ensures NewAt(LoadOne(t, miv, i, cfg), miv, i + 1, j, cfg) <==> NewAt(t, miv, i, j, cfg)
  {
  }

  lemma AnnouncedLater(t: Table, miv: seq<Area>, i: nat, cfg: Config, ev: Event)
    requires i < |miv| && DistinctNames(miv)
    ensures Announced(t, miv, i, cfg, ev) <==>
            || Announced(LoadOne(t, miv, i, cfg), miv, i + 1, cfg, ev)
            || (NewAt(t, miv, i, i, cfg) && ev == Announcement(miv[i], cfg))
  {
    hide NewAt;
    hide LoadOne;
    hide Announcement;
    forall j: nat | i < j < |miv| { NewLater(t, miv, i, j, cfg); }
  }

  lemma LoadOneNew(t: Table, miv: seq<Area>, i: nat, cfg: Config)
    requires i < |miv| && DistinctNames(miv)
    ensures LoadOne(t, miv, i, cfg) ==
            if !NewAt(t, miv, i, i, cfg) then t
            else Table([Announcement(miv[i], cfg)] + t.events,
                       t.dlls[miv[i].start := Image(miv[i].start, Size(miv[i]), miv[i].name)],
                       t.toImport + {miv[i].start})
  {
    DistinctSize(miv, i);
  }

  lemma QueueFrom(t: Table, miv: seq<Area>, i: nat, cfg: Config, events: seq<Event>, n: nat)
    requires i < |miv| && DistinctNames(miv)
    requires LoadedQueue(LoadOne(t, miv, i, cfg), miv, i + 1, cfg, events, n)
    ensures LoadedQueue(t, miv, i, cfg, events, if NewAt(t, miv, i, i, cfg) then n + 1 else n)
  {
    hide LoadOne;
    hide NewAt;
    hide Announced;
    hide Announcement;
    LoadOneNew(t, miv, i, cfg);
    forall ev { AnnouncedLater(t, miv, i, cfg, ev); }
    if NewAt(t, miv, i, i, cfg) {
      var m := LoadOne(t, miv, i, cfg);
      assert events[n] == events[n..][0] == Announcement(miv[i], cfg);
      assert events[n + 1..] == events[n..][1..] == t.events;
      assert events[..n + 1] == events[..n] + [Announcement(miv[i], cfg)];
    }
  }

  lemma TableFrom(t: Table, miv: seq<Area>, i: nat, cfg: Config, r: Table)
    requires i < |miv| && DistinctNames(miv) && LoadedTable(LoadOne(t, miv, i, cfg), miv, i + 1, cfg, r)
    ensures LoadedTable(t, miv, i, cfg, r)
  {
    hide LoadOne;
    hide NewAt;
    hide Announcement;
    LoadOneNew(t, miv, i, cfg);
    forall j: nat | i < j < |miv| { NewLater(t, miv, i, j, cfg); }
    if NewAt(t, miv, i, i, cfg) { NewNotThere(t, miv, i, cfg); }
  }

  lemma NewNotThere(t: Table, miv: seq<Area>, i: nat, cfg: Config)
    requires i < |miv| && NewAt(t, miv, i, i, cfg)
    ensures miv[i].start !in t.dlls
  {
  }

  lemma LoadedFrom(t: Table, miv: seq<Area>, i: nat, cfg: Config, r: Table)
    requires i < |miv| && DistinctNames(miv) && Loaded(LoadOne(t, miv, i, cfg), miv, i + 1, cfg, r)
    ensures Loaded(t, miv, i, cfg, r)
  {
    hide LoadOne;
    hide NewAt;
    hide LoadedQueue;
    hide LoadedTable;
    hide Announcement;
    var m := LoadOne(t, miv, i, cfg);
    LoadOneNew(t, miv, i, cfg);
    if NewAt(t, miv, i, i, cfg) { NewNotThere(t, miv, i, cfg); }
    QueueFrom(t, miv, i, cfg, r.events, |r.dlls| - |m.dlls|);
    TableFrom(t, miv, i, cfg, r);
  }

  lemma NothingLoaded(t: Table, miv: seq<Area>, cfg: Config)
    ensures Loaded(t, miv, |miv|, cfg, t)
  {
  }

  lemma {:induction false} LoadAllLoads(t: Table, miv: seq<Area>, i: nat, cfg: Config)
    requires i <= |miv| && DistinctNames(miv)
    ensures Loaded(t, miv, i, cfg, LoadAll(t, miv, i, cfg))
    decreases |miv| - i
  {
    hide Loaded;
    hide LoadOne;
    if i == |miv| {
      NothingLoaded(t, miv, cfg);
    } else {
      LoadAllLoads(LoadOne(t, miv, i, cfg), miv, i + 1, cfg);
      LoadedFrom(t, miv, i, cfg, LoadAll(t, miv, i, cfg));
    }
  }

  // ---------------------------------------------------------------- the whole map

  // A module of the map that can be registered: it has a name, is not the program itself,
  // and begins with an ELF header.
  ghost predicate Candidate(a: Area, raw: seq<Area>, cfg: Config) {
    IsExtent(a, raw) && a.name != [] && (cfg.isDll || a.name != cfg.inputFile) && a.start in cfg.elf
  }

  // An entry whose module is still mapped.
  predicate Kept(t: Table, raw: seq<Area>, k: word) {
    k in t.dlls && Named(raw, t.dlls[k].fname)
  }

  // A module that gets registered: a candidate whose base is not taken by an entry that is
  // kept, nor by a candidate mapped before it.
  ghost predicate Registered(t: Table, raw: seq<Area>, cfg: Config, a: Area) {
    && Candidate(a, raw, cfg) && !Kept(t, raw, a.start)
    && forall b :: Candidate(b, raw, cfg) && b.start == a.start && b != a ==> Before(raw, a.name, b.name)
  }

  lemma BeforeOnce(raw: seq<Area>, a: Text, b: Text)
    requires Before(raw, a, b)
    ensures !Before(raw, b, a)
  {
  }

  lemma NewIff(t: Table, u: Table, raw: seq<Area>, cfg: Config, j: nat)
    requires j < |MergeAll([], raw)| && forall k :: k in u.dlls <==> Kept(t, raw, k)
    ensures var miv := MergeAll([], raw); NewAt(u, miv, 0, j, cfg) <==> Registered(t, raw, cfg, miv[j])
  {
    hide IsExtent;
    hide Before;
    hide Kept;
    var miv := MergeAll([], raw);
    var a := miv[j];
    forall b { MergedIff(raw, b); }
    if NewAt(u, miv, 0, j, cfg) {
      forall b | Candidate(b, raw, cfg) && b.start == a.start && b != a ensures Before(raw, a.name, b.name) {
        assert b in miv;
        var k :| 0 <= k < |miv| && miv[k] == b;
        assert k > j;
      }
    }
    if Registered(t, raw, cfg, a) {
      forall k | 0 <= k < j && Eligible(miv[k], cfg) ensures miv[k].start != a.start {
        var b := miv[k];
        assert Candidate(b, raw, cfg);
        BeforeDiffers(raw, b.name, a.name);
        BeforeOnce(raw, b.name, a.name);
      }
    }
  }

  lemma AnnouncedIff(t: Table, u: Table, raw: seq<Area>, cfg: Config, ev: Event)
    requires forall k :: k in u.dlls <==> Kept(t, raw, k)
    ensures Announced(u, MergeAll([], raw), 0, cfg, ev) <==>
            exists a :: Registered(t, raw, cfg, a) && ev == Announcement(a, cfg)
  {
    hide NewAt;
    hide Kept;
    hide Announcement;
    hide MergeAll;
    var miv := MergeAll([], raw);
    forall j: nat | j < |miv| { NewIff(t, u, raw, cfg, j); }
    if a :| Registered(t, raw, cfg, a) && ev == Announcement(a, cfg) {
      MergedIff(raw, a);
      var j :| 0 <= j < |miv| && miv[j] == a;
      assert NewAt(u, miv, 0, j, cfg);
    }
  }

  // What is left of the table when the missing modules are unloaded.
  lemma UnloadedKept(t: Table, raw: seq<Area>, cfg: Config)
    ensures var u := UnloadAll(t, t.dlls.Keys, MergeAll([], raw), cfg);
            && (forall k :: k in u.dlls <==> Kept(t, raw, k)) && (forall k :: k in u.dlls ==> u.dlls[k] == t.dlls[k])
            && u.toImport == t.toImport
  {
    hide Merged;
    hide MergeAll;
    var miv := MergeAll([], raw);
    UnloadAllFacts(t, t.dlls.Keys, miv, cfg);
    MergedAll(raw);
    forall name: Text { MergedNamed(miv, raw, name); }
  }

  /** The table after handling a map: the entries whose module is still mapped, unchanged, and
      one for every module registered, with the least address of its areas as base and its
      extent as size; their bases are noted for the import of symbols. */
  lemma HandledIff(t: Table, raw: seq<Area>, cfg: Config)
    ensures var r := Handled(t, raw, cfg);
            && (forall k :: k in r.dlls <==> Kept(t, raw, k) || exists a :: Registered(t, raw, cfg, a) && a.start == k)
            && (forall k :: Kept(t, raw, k) ==> r.dlls[k] == t.dlls[k])
            && (forall a :: Registered(t, raw, cfg, a) ==> r.dlls[a.start] == Image(a.start, Size(a), a.name))
            && (forall k :: k in r.toImport <==> k in t.toImport || (k in r.dlls && !Kept(t, raw, k)))
  {
    hide Loaded;
    hide NewAt;
    hide Kept;
    hide Registered;
    hide MergeAll;
    var miv := MergeAll([], raw);
    var u, r := UnloadAll(t, t.dlls.Keys, miv, cfg), Handled(t, raw, cfg);
    UnloadedKept(t, raw, cfg);
    LoadedAll(u, raw, cfg);
    forall j: nat | j < |miv| { NewIff(t, u, raw, cfg, j); }
    forall a | Registered(t, raw, cfg, a) ensures a in miv { RegisteredMerged(t, raw, cfg, a); }
    forall k | k in r.dlls && !Kept(t, raw, k) ensures exists a :: Registered(t, raw, cfg, a) && a.start == k {
      var j: nat :| j < |miv| && miv[j].start == k && NewAt(u, miv, 0, j, cfg);
      assert Registered(t, raw, cfg, miv[j]);
    }
    forall a | Registered(t, raw, cfg, a)
      ensures a.start in r.dlls && r.dlls[a.start] == Image(a.start, Size(a), a.name)
    {
      var j: nat :| j < |miv| && miv[j] == a;
      assert NewAt(u, miv, 0, j, cfg);
    }
  }

  lemma RegisteredMerged(t: Table, raw: seq<Area>, cfg: Config, a: Area)
    requires Registered(t, raw, cfg, a)
    ensures a in MergeAll([], raw)
  {
    hide IsExtent;
    MergedIff(raw, a);
  }

  lemma LoadedAll(u: Table, raw: seq<Area>, cfg: Config)
    ensures var miv := MergeAll([], raw);
            var r := LoadAll(u, miv, 0, cfg);
            && |r.dlls| >= |u.dlls| && LoadedQueue(u, miv, 0, cfg, r.events, |r.dlls| - |u.dlls|)
            && LoadedTable(u, miv, 0, cfg, r)
  {
    hide LoadedQueue;
    hide LoadedTable;
    MergedIff(raw, Area(0, 0, []));
    LoadAllLoads(u, MergeAll([], raw), 0, cfg);
  }

  /** The queue after handling a map: in front one announcement for every module registered,
      with its base, its extent as size, its name, and the address to rebase to if it is the
      input file; behind them what unloading has left. */
  lemma AnnouncementsIff(t: Table, raw: seq<Area>, cfg: Config)
    ensures var r, u := Handled(t, raw, cfg), UnloadAll(t, t.dlls.Keys, MergeAll([], raw), cfg);
            var n := |r.dlls| - |u.dlls|;
            && 0 <= n <= |r.events| && r.events[n..] == u.events
            && forall ev :: ev in r.events[..n] <==>
                            exists a :: Registered(t, raw, cfg, a) && ev == Announcement(a, cfg)
  {
    hide Kept;
    hide Registered;
    hide Announced;
    hide MergeAll;
    hide LoadedTable;
    var u := UnloadAll(t, t.dlls.Keys, MergeAll([], raw), cfg);
    UnloadedKept(t, raw, cfg);
    LoadedAll(u, raw, cfg);
    forall ev { AnnouncedIff(t, u, raw, cfg, ev); }
  }

  // ---------------------------------------------------------------- unloading

  // The queued LOADs of a module, and its queued UNLOADs.
  function Loads(events: seq<Event>, name: Text): nat
    decreases |events|
  {
    if events == [] then 0
    else (if IsModuleEvent(events[0], LIBRARY_LOAD, name) then 1 else 0) + Loads(events[1..], name)
  }

  function Unloads(events: seq<Event>, name: Text): nat
    decreases |events|
  {
    if events == [] then 0 else (if IsUnload(events[0], name) then 1 else 0) + Unloads(events[1..], name)
  }

  predicate IsLibraryEvent(ev: Event) {
    (ev.eid == LIBRARY_LOAD && ev.payload.Module?) || ev.eid == LIBRARY_UNLOAD
  }

  // The events that are not about libraries.
  function Others(events: seq<Event>): seq<Event>
    decreases |events|
  {
    if events == [] then []
    else (if IsLibraryEvent(events[0]) then [] else [events[0]]) + Others(events[1..])
  }

  lemma {:induction false} DropLoads(events: seq<Event>, dropped: Text, name: Text)
    ensures var left := DelPendingEvent(events, LIBRARY_LOAD, dropped);
            && |left| <= |events| && (|left| < |events| <==> Loads(events, dropped) > 0)
            && Loads(left, name) == Loads(events, name) - (if name == dropped && Loads(events, name) > 0 then 1 else 0)
            && Unloads(left, name) == Unloads(events, name)
            && Others(left) == Others(events)
    decreases |events|
  {
    if events != [] && !IsModuleEvent(events[0], LIBRARY_LOAD, dropped) {
      DropLoads(events[1..], dropped, name);
      var left := DelPendingEvent(events[1..], LIBRARY_LOAD, dropped);
      assert ([events[0]] + left)[1..] == left;
    }
  }

  lemma UnloadPushed(events: seq<Event>, cfg: Config, gone: Text, name: Text)
    ensures var more := [UnloadEvent(cfg, gone)] + events;
            && Loads(more, name) == Loads(events, name) && Others(more) == Others(events)
            && Unloads(more, name) == Unloads(events, name) + (if name == gone then 1 else 0)
  {
    assert ([UnloadEvent(cfg, gone)] + events)[1..] == events;
  }

  // The entries of a module that go when the entries of todo are looked at.
  function Leaving(dlls: map<word, Image>, todo: set<word>, miv: seq<Area>, name: Text): set<word> {
    set k | k in todo && k in dlls && dlls[k].fname == name && !Named(miv, name)
  }

  lemma LeavingOne(t: Table, todo: set<word>, k: word, miv: seq<Area>, cfg: Config, name: Text)
    requires k in todo && todo <= t.dlls.Keys
    ensures |Leaving(t.dlls, todo, miv, name)|
            == |Leaving(UnloadOne(t, k, miv, cfg).dlls, todo - {k}, miv, name)|
               + (if t.dlls[k].fname == name && !Named(miv, name) then 1 else 0)
  {
    var rest := Leaving(UnloadOne(t, k, miv, cfg).dlls, todo - {k}, miv, name);
    assert Leaving(t.dlls, todo, miv, name)
        == if t.dlls[k].fname == name && !Named(miv, name) then rest + {k} else rest;
  }

  lemma UnloadOneCounts(t: Table, k: word, miv: seq<Area>, cfg: Config, name: Text)
    requires k in t.dlls
    ensures var r := UnloadOne(t, k, miv, cfg);
            var leaves, cancels := t.dlls[k].fname == name && !Named(miv, name), Loads(t.events, name) > 0;
            && Loads(r.events, name) == Loads(t.events, name) - (if leaves && cancels then 1 else 0)
            && Unloads(r.events, name) == Unloads(t.events, name) + (if leaves && !cancels then 1 else 0)
            && Others(r.events) == Others(t.events) && t.dlls.Keys - {k} <= r.dlls.Keys
  {
    var gone := t.dlls[k].fname;
    FindNamed(miv, gone);
    DropLoads(t.events, gone, gone);
    DropLoads(t.events, gone, name);
    UnloadPushed(t.events, cfg, gone, name);
  }

  lemma {:induction false} UnloadAllCounts(t: Table, todo: set<word>, miv: seq<Area>, cfg: Config, name: Text)
    requires todo <= t.dlls.Keys
    ensures var r := UnloadAll(t, todo, miv, cfg);
            var leaving, queued := |Leaving(t.dlls, todo, miv, name)|, Loads(t.events, name);
            && Loads(r.events, name) == (if leaving < queued then queued - leaving else 0)
            && Unloads(r.events, name) == Unloads(t.events, name) + (if leaving > queued then leaving - queued else 0)
            && Others(r.events) == Others(t.events)
    decreases |todo|
  {
    hide UnloadOne;
    if todo != {} {
      var k := Least(todo);
      LeavingOne(t, todo, k, miv, cfg, name);
      UnloadOneCounts(t, k, miv, cfg, name);
      UnloadAllCounts(UnloadOne(t, k, miv, cfg), todo - {k}, miv, cfg, name);
    } else {
      assert Leaving(t.dlls, {}, miv, name) == {};
    }
  }

  /** Unloading takes back as many announcements of a missing module as are still queued, one
      for each of its entries, and only for the entries left over queues an UNLOAD; a module
      that is still mapped keeps its announcements, and events that are not about libraries
      stay in order. */
  lemma UnloadingCounts(t: Table, raw: seq<Area>, cfg: Config, name: Text)
    ensures var u := UnloadAll(t, t.dlls.Keys, MergeAll([], raw), cfg);
            var entries, queued := if Named(raw, name) then 0 else Entries(t.dlls, name), Loads(t.events, name);
            && Loads(u.events, name) == (if entries < queued then queued - entries else 0)
            && Unloads(u.events, name) == Unloads(t.events, name) + (if entries > queued then entries - queued else 0)
            && Others(u.events) == Others(t.events)
  {
    var miv := MergeAll([], raw);
    MergedAll(raw);
    MergedNamed(miv, raw, name);
    UnloadAllCounts(t, t.dlls.Keys, miv, cfg, name);
    assert Leaving(t.dlls, t.dlls.Keys, miv, name) == if Named(raw, name) then {} else Holders(t.dlls, name);
  }

  lemma {:induction false} UnloadAllEvents(t: Table, todo: set<word>, miv: seq<Area>, cfg: Config, ev: Event)
    requires todo <= t.dlls.Keys && ev in UnloadAll(t, todo, miv, cfg).events && ev !in t.events
    ensures exists k :: k in todo && !Named(miv, t.dlls[k].fname)
              && ev == Event(LIBRARY_UNLOAD, cfg.process, cfg.process, BADADDR, true, Info(t.dlls[k].fname))
    decreases |todo|
  {
    if todo != {} {
      var k := Least(todo);
      var m := UnloadOne(t, k, miv, cfg);
      FindNamed(miv, t.dlls[k].fname);
      DelKeeps(t.events, LIBRARY_LOAD, t.dlls[k].fname, ev);
      if ev !in m.events { UnloadAllEvents(m, todo - {k}, miv, cfg, ev); }
    }
  }

  /** Whatever unloading queues is the UNLOAD of an entry whose module is not mapped. */
  lemma UnloadEvents(t: Table, raw: seq<Area>, cfg: Config, ev: Event)
    requires ev in UnloadAll(t, t.dlls.Keys, MergeAll([], raw), cfg).events && ev !in t.events
    ensures exists k :: k in t.dlls && !Kept(t, raw, k)
              && ev == Event(LIBRARY_UNLOAD, cfg.process, cfg.process, BADADDR, true, Info(t.dlls[k].fname))
  {
    hide MergeAll;
    hide Merged;
    MergedAll(raw);
    UnloadAllEvents(t, t.dlls.Keys, MergeAll([], raw), cfg, ev);
    forall name: Text { MergedNamed(MergeAll([], raw), raw, name); }
  }

  lemma {:induction false} DelKeeps(events: seq<Event>, eid: word, name: Text, ev: Event)
    ensures ev in DelPendingEvent(events, eid, name) ==> ev in events
    decreases |events|
  {
    if events != [] && !IsModuleEvent(events[0], eid, name) { DelKeeps(events[1..], eid, name, ev); }
  }
}
