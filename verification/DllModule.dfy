/** The library table as the object it is, next to the debugger module whose event queue
    it writes to; each loop is proved to compute the corresponding step. */
module DllModule {
  import opened DebugEvents
  import opened LeastElement
  import opened DllMovements
  import TM = ThreadMachine
  import opened LinuxDebmod

  class DllTable {
    const debmod: Debmod
    const isDll: bool
    const inputFile: Text
    var dlls: map<word, Image>
    var toImport: set<word>

    function State(): Table
      reads this, debmod
    {
      Table(debmod.events, dlls, toImport)
    }

    // elf is what reading the memory at the candidate addresses will show.
    function Settings(elf: set<word>): Config
      reads debmod
    {
      Config(debmod.ProcessHandle(), isDll, inputFile, elf)
    }

    constructor (debmod: Debmod, isDll: bool, inputFile: Text)
      ensures this.debmod == debmod && this.isDll == isDll && this.inputFile == inputFile
      ensures State() == Table(debmod.events, map[], {})
    {
      this.debmod, this.isDll, this.inputFile, dlls, toImport := debmod, isDll, inputFile, map[], {};
    }

    method Find(miv: seq<Area>, name: Text) returns (r: Option<nat>)
      ensures r == FindDll(miv, name, 0)
    {
      for i := 0 to |miv|
        invariant FindDll(miv, name, i) == FindDll(miv, name, 0)
      {
        if miv[i].name == name { return Some(i); }
      }
      r := None;
    }

    method Merge(raw: seq<Area>) returns (miv: seq<Area>)
      ensures miv == MergeAll([], raw)
    {
      miv := [];
      var todo := raw;
      while todo != []
        invariant MergeAll(miv, todo) == MergeAll([], raw)
        decreases |todo|
      {
        var src := todo[0];
        var target := Find(miv, src.name);
        if target.Some? {
          var i := target.value;
          ghost var was := miv;
          miv := miv[i := Extend(miv[i], src.start)];
          miv := miv[i := Extend(miv[i], src.end)];
          assert miv == MergeOne(was, src);
        } else {
          miv := miv + [src];
        }
        todo := todo[1..];
      }
    }

    // An entry whose module is not mapped any more.
    method Unload(k: word, miv: seq<Area>, ghost elf: set<word>)
      requires k in dlls
      modifies this, debmod
      ensures State() == UnloadOne(old(State()), k, miv, old(Settings(elf)))
      ensures Settings(elf) == old(Settings(elf))
    {
      var name := dlls[k].fname;
      var found := Find(miv, name);
      if found == None {
        ghost var left := TM.DelPendingEvent(debmod.events, LIBRARY_LOAD, name);
        Dropped(debmod.events, name);
        var cancelled := debmod.DelPendingEvent(LIBRARY_LOAD, name);
        assert debmod.events == left == debmod.State().events;
        if !cancelled {
          var process := debmod.ProcessHandle();
          debmod.EnqueueEvent(Event(LIBRARY_UNLOAD, process, process, BADADDR, true, Info(name)), InFront);
          assert debmod.events == debmod.State().events;
        }
        dlls := dlls - {k};
      }
    }

    method UnloadMissing(miv: seq<Area>, ghost elf: set<word>)
      modifies this, debmod
      ensures State() == UnloadAll(old(State()), old(dlls.Keys), miv, old(Settings(elf)))
      ensures Settings(elf) == old(Settings(elf))
    {
      var todo := dlls.Keys;
      ghost var cfg := Settings(elf);
      ghost var goal := UnloadAll(State(), todo, miv, cfg);
      while todo != {}
        invariant todo <= dlls.Keys && Settings(elf) == cfg
        invariant UnloadAll(State(), todo, miv, cfg) == goal
        decreases |todo|
      {
        var k := PickLeast(todo);
        Unload(k, miv, elf);
        todo := todo - {k};
      }
    }

    method CalcModuleSize(miv: seq<Area>, i: nat) returns (size: word)
      requires i < |miv|
      ensures size == ModuleSize(miv, i)
    {
      if miv[i].end == 0 { return 0; }
      var end := miv[i].end;
      var j := i + 1;
      while j < |miv| && miv[j].name == miv[i].name
        invariant i < j <= |miv| && end == miv[j - 1].end && miv[j - 1].name == miv[i].name
        invariant RunEnd(miv, i) == RunEnd(miv, j - 1)
      {
        end := miv[j].end;
        j := j + 1;
      }
      size := (end - miv[i].start) % TWO_32;
    }

    method AddNew(base: word, size: word, name: Text, ghost elf: set<word>)
      modifies this, debmod
      ensures State() == AddDll(old(State()), base, size, name, old(Settings(elf)))
      ensures Settings(elf) == old(Settings(elf))
    {
      var process := debmod.ProcessHandle();
      var rebase := BADADDR;
      if isDll && inputFile == name { rebase := base; }
      debmod.EnqueueEvent(Event(LIBRARY_LOAD, process, process, base, true, Module(ModuleInfo(name, base, size,
          rebase))), InFront);
      assert debmod.events == debmod.State().events;
      dlls := dlls[base := Image(base, size, name)];
      toImport := toImport + {base};
    }

    method LoadNew(miv: seq<Area>, elf: set<word>)
      modifies this, debmod
      ensures State() == LoadAll(old(State()), miv, 0, old(Settings(elf)))
    {
      ghost var cfg := Settings(elf);
      ghost var goal := LoadAll(State(), miv, 0, cfg);
      for i := 0 to |miv|
        invariant LoadAll(State(), miv, i, cfg) == goal && Settings(elf) == cfg
      {
        if miv[i].name == [] { continue; }
        if !isDll && miv[i].name == inputFile { continue; }
        var base := miv[i].start;
        if base in dlls { continue; }
        if base !in elf { continue; }
        var size := CalcModuleSize(miv, i);
        AddNew(base, size, miv[i].name, elf);
      }
    }

    method HandleDllMovements(raw: seq<Area>, elf: set<word>)
      modifies this, debmod
      ensures State() == Handled(old(State()), raw, old(Settings(elf)))
    {
      var miv := Merge(raw);
      UnloadMissing(miv, elf);
      LoadNew(miv, elf);
    }
  }

  // A pending event was there exactly when the queue gets shorter.
  lemma {:induction false} Dropped(events: seq<Event>, name: Text)
    ensures |TM.DelPendingEvent(events, LIBRARY_LOAD, name)| < |events| <==>
            exists ev :: ev in events && TM.IsModuleEvent(ev, LIBRARY_LOAD, name)
    ensures (forall ev :: ev in events ==> !TM.IsModuleEvent(ev, LIBRARY_LOAD, name)) ==>
            TM.DelPendingEvent(events, LIBRARY_LOAD, name) == events
    decreases |events|
  {
    if events != [] {
      Dropped(events[1..], name);
      if TM.IsModuleEvent(events[0], LIBRARY_LOAD, name) {
        assert events[0] in events;
      } else {
        assert forall ev :: ev in events <==> ev == events[0] || ev in events[1..];
      }
    }
  }
}
