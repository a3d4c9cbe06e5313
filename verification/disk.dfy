/**
 The crontabs and files of a host as places that can be read, written and removed, every
 such call free to fail as an oracle decides.

 A read that returns gives what the last write left.  A write or a removal may raise, take
 effect or not, or leave something else behind, in any combination.
 */
module Disks {
  import opened Results
  import opened Faults
  import opened Texts
  import opened Crontabs
  import opened Rendering
  import opened Hosts
  import opened Convergence
  import opened InstalledSlugs

  datatype Effect = Whole | Nothing | Garbled(left: Text)
  datatype Behaviour = Behaviour(raises: bool, effect: Effect)

  /** The call that last wrote a place, and what it was to leave there. */
  datatype Written = Written(call: nat, text: Text)

  function Wanted(text: Option<Text>): Text {
    if text.Some? then text.value else EMPTY
  }

  /** A host after writing a text at a place, or removing it when there is no text. */
  function Effected(h: Host, at: Place, text: Option<Text>, effect: Effect): Host {
    match effect
    case Nothing => h
    case Garbled(left) => h[at := left]
    case Whole => match text { case Some(t) => h[at := t] case None => h - {at} }
  }

  lemma ElsewhereUntouched(h: Host, at: Place, text: Option<Text>, effect: Effect)
    ensures forall p | p != at :: Hosts.Read(Effected(h, at, text, effect), p) == Hosts.Read(h, p)
  {
  }

  /** A write that takes effect or does not, of a text showing installed slugs only. */
  lemma PutKeepsInstalled(s: Stores, h: Host, at: Place, text: Option<Text>, effect: Effect, installed: set<string>)
    requires AllInstalled(s, h, installed) && !effect.Garbled?
    requires text.Some? ==> PlaceInstalled(at, text.value, installed)
    ensures AllInstalled(s, Effected(h, at, text, effect), installed)
  {
    hide PlaceInstalled, Tabs, Dirs;
    EmptyShowsNothing(at, installed);
    ElsewhereUntouched(h, at, text, effect);
  }

  class Disk {
    var held: Host
    var calls: nat
    ghost var trace: seq<Host>
    ghost var last: map<Place, Written>
    const faults: nat -> Behaviour

    constructor (held: Host, faults: nat -> Behaviour)
      ensures this.held == held && this.faults == faults && calls == 0 && trace == [] && last == map[]
    {
      this.held := held;
      this.faults := faults;
      calls := 0;
      trace := [];
      last := map[];
    }

    /** Every call since the given one did what it was asked. */
    ghost predicate Honest(from: nat)
      reads this
    {
      forall i | from <= i < calls :: faults(i) == Behaviour(false, Whole)
    }

    /** The last write at a place since the given call was to leave what a host held there. */
    ghost predicate PutBack(at: Place, before: Host, from: nat)
      reads this
    {
      at in last && from <= last[at].call < calls && last[at].text == Hosts.Read(before, at)
    }

    /**
     The place reads as it did before; or it was put back by a call that returned, and that
     call did something else.
     */
    ghost predicate Restored(at: Place, before: Host, from: nat)
      reads this
    {
      || Hosts.Read(held, at) == Hosts.Read(before, at)
      || (PutBack(at, before, from) && !faults(last[at].call).raises && !faults(last[at].call).effect.Whole?)
    }

    /** The last call of all was to put a place back, and raised. */
    ghost predicate RaisedPuttingBack(before: Host, from: nat)
      reads this
    {
      exists at :: PutBack(at, before, from) && last[at].call == calls - 1 && faults(calls - 1).raises
    }

    /** Every write since the given call took effect or did not; none left anything else. */
    ghost predicate Atomic(from: nat)
      reads this
    {
      forall i | from <= i < calls :: !faults(i).effect.Garbled?
    }

    ghost predicate Raised(from: nat)
      reads this
    {
      exists i | from <= i < calls :: faults(i).raises
    }

    /** The host now, and every state it went through since the given one, shows installed slugs only. */
    ghost predicate Safe(s: Stores, installed: set<string>, from: nat)
      reads this
    {
      && AllInstalled(s, held, installed)
      && (forall k | from <= k < |trace| :: AllInstalled(s, trace[k], installed))
    }

    ghost predicate Extends(earlier: seq<Host>)
      reads this
    {
      earlier <= trace
    }

    method Read(at: Place) returns (r: Result<Text, Fault>)
      modifies this`calls
      ensures calls == old(calls) + 1
      ensures r == if faults(old(calls)).raises then Err(StoreFailed) else Ok(Hosts.Read(held, at))
    {
      r := if faults(calls).raises then Err(StoreFailed) else Ok(Hosts.Read(held, at));
      calls := calls + 1;
    }

    /** The names in a directory, in order. */
    method Names(dir: Dir) returns (r: Result<seq<string>, Fault>)
      modifies this`calls
      ensures calls == old(calls) + 1
      ensures r == if faults(old(calls)).raises then Err(StoreFailed) else Ok(Listing(held, dir))
    {
      r := if faults(calls).raises then Err(StoreFailed) else Ok(Listing(held, dir));
      calls := calls + 1;
    }

    method Put(at: Place, text: Option<Text>) returns (r: Result<(), Fault>)
      modifies this
      ensures calls == old(calls) + 1
      ensures held == Effected(old(held), at, text, faults(old(calls)).effect)
      ensures trace == old(trace) + [held] && last == old(last)[at := Written(old(calls), Wanted(text))]
      ensures r == if faults(old(calls)).raises then Err(StoreFailed) else Ok(())
    {
      held := Effected(held, at, text, faults(calls).effect);
      trace := trace + [held];
      last := last[at := Written(calls, Wanted(text))];
      r := if faults(calls).raises then Err(StoreFailed) else Ok(());
      calls := calls + 1;
    }
  }

  /** What every touched place held before an apply began; each place is recorded once. */
  class Snapshot {
    var crontabs: seq<(Place, Text)>
    var files: seq<(Place, Text)>

    constructor ()
      ensures crontabs == [] && files == []
    {
      crontabs := [];
      files := [];
    }

    static predicate Recorded(list: seq<(Place, Text)>, at: Place) {
      exists i | 0 <= i < |list| :: list[i].0 == at
    }

    static predicate Faithful(list: seq<(Place, Text)>, before: Host) {
      && (forall i | 0 <= i < |list| :: list[i].1 == Hosts.Read(before, list[i].0))
      && (forall i, j | 0 <= i < j < |list| :: list[i].0 != list[j].0)
    }

    /** The recorded places have their content from before; every other place still reads as it did. */
    ghost predicate Holds(before: Host, now: Host)
      reads this
    {
      && Faithful(crontabs, before) && (forall i | 0 <= i < |crontabs| :: !crontabs[i].0.File?)
      && Faithful(files, before) && (forall i | 0 <= i < |files| :: files[i].0.File?)
      && (forall p: Place | !Recorded(crontabs, p) && !Recorded(files, p) :: Hosts.Read(now, p) == Hosts.Read(before, p))
    }

    ghost predicate Has(at: Place)
      reads this
    {
      Recorded(crontabs, at) || Recorded(files, at)
    }

    lemma WriteKeepsHolding(before: Host, now: Host, at: Place, text: Option<Text>, effect: Effect)
      requires Holds(before, now) && Has(at)
      ensures Holds(before, Effected(now, at, text, effect))
    {
      ElsewhereUntouched(now, at, text, effect);
    }

    method CaptureCrontab(at: Place, content: Text, ghost before: Host, ghost now: Host)
      requires Holds(before, now) && content == Hosts.Read(now, at) && !at.File?
      modifies this
      ensures Holds(before, now) && Has(at)
    {
      if !Recorded(crontabs, at) {
        ghost var was := crontabs;
        crontabs := crontabs + [(at, content)];
        assert crontabs[|was|].0 == at;
        assert forall i | 0 <= i < |was| :: crontabs[i] == was[i];
        Grown(was, (at, content));
        assert !Recorded(files, at);
      }
    }

    method CaptureFile(at: Place, content: Text, ghost before: Host, ghost now: Host)
      requires Holds(before, now) && content == Hosts.Read(now, at) && at.File?
      modifies this
      ensures Holds(before, now) && Has(at)
    {
      if !Recorded(files, at) {
        ghost var was := files;
        files := files + [(at, content)];
        assert files[|was|].0 == at;
        assert forall i | 0 <= i < |was| :: files[i] == was[i];
        Grown(was, (at, content));
        assert !Recorded(crontabs, at);
      }
    }

    static lemma Grown(list: seq<(Place, Text)>, last: (Place, Text))
      ensures forall p :: Recorded(list + [last], p) <==> Recorded(list, p) || p == last.0
    {
      forall p | Recorded(list, p) || p == last.0 ensures Recorded(list + [last], p) {
        if p == last.0 {
          assert (list + [last])[|list|].0 == p;
        } else {
          var i :| 0 <= i < |list| && list[i].0 == p;
          assert (list + [last])[i].0 == p;
        }
      }
    }

    /** Recorded places from the i-th on were put back, by calls that returned. */
    static ghost predicate AllPut(list: seq<(Place, Text)>, i: nat, disk: Disk, from: nat)
      reads disk
    {
      forall j | i <= j < |list| ::
        && list[j].0 in disk.last && from <= disk.last[list[j].0].call < disk.calls && disk.last[list[j].0].text == list[j].1
        && !disk.faults(disk.last[list[j].0].call).raises
        && (disk.faults(disk.last[list[j].0].call).effect.Whole? ==> Hosts.Read(disk.held, list[j].0) == list[j].1)
    }

    /** One recorded place goes back to what it held, unless the write fails. */
    method RestorePlace(disk: Disk, at: Place, text: Option<Text>, ghost before: Host, ghost s: Stores, ghost installed: set<string>)
      returns (r: Result<(), Fault>)
      requires Holds(before, disk.held) && Has(at) && Hosts.Read(before, at) == Wanted(text)
      modifies disk
      ensures disk.calls == old(disk.calls) + 1 && disk.trace == old(disk.trace) + [disk.held]
      ensures Holds(before, disk.held)
      ensures forall p | p != at :: Hosts.Read(disk.held, p) == old(Hosts.Read(disk.held, p))
      ensures disk.last == old(disk.last)[at := Written(old(disk.calls), Hosts.Read(before, at))]
      ensures disk.faults(old(disk.calls)).effect.Whole? ==> Hosts.Read(disk.held, at) == Hosts.Read(before, at)
      ensures r.Err? <==> disk.faults(old(disk.calls)).raises
      ensures old(AllInstalled(s, disk.held, installed)) && AllInstalled(s, before, installed) && disk.Atomic(old(disk.calls)) ==>
                AllInstalled(s, disk.held, installed)
    {
      hide AllInstalled, Holds, Has, Effected;
      ghost var was := disk.held;
      r := disk.Put(at, text);
      ghost var effect := disk.faults(disk.calls - 1).effect;
      WriteKeepsHolding(before, was, at, text, effect);
      ElsewhereUntouched(was, at, text, effect);
      WholeIsRead(was, at, text);
      if AllInstalled(s, was, installed) && AllInstalled(s, before, installed) && !effect.Garbled? {
        RestoreKeepsInstalled(s, was, before, at, text, effect, installed);
      }
    }

    /** Recorded crontabs go back, from the last captured to the first; or recorded files. */
    method RestoreList(tabs: bool, disk: Disk, ghost before: Host, ghost s: Stores, ghost installed: set<string>) returns (r: Result<(), Fault>)
      requires Holds(before, disk.held) && Tidy(before)
      modifies disk
      ensures disk.calls >= old(disk.calls) && disk.Extends(old(disk.trace)) && Holds(before, disk.held)
      ensures r.Ok? ==> AllPut(if tabs then crontabs else files, 0, disk, old(disk.calls))
      ensures r.Err? ==> disk.RaisedPuttingBack(before, old(disk.calls))
      ensures forall p: Place | p.File? == tabs :: Hosts.Read(disk.held, p) == old(Hosts.Read(disk.held, p))
      ensures forall p: Place | p.File? == tabs :: (p in disk.last <==> p in old(disk.last)) && (p in disk.last ==> disk.last[p] == old(disk.last)[p])
      ensures old(AllInstalled(s, disk.held, installed)) && AllInstalled(s, before, installed) && disk.Atomic(old(disk.calls)) ==>
                disk.Safe(s, installed, old(|disk.trace|))
    {
      hide AllInstalled, Has, Effected, Holds, Faithful;
      var list := if tabs then crontabs else files;
      var i := |list|;
      while i > 0
        invariant 0 <= i <= |list|
        invariant disk.calls >= old(disk.calls) && disk.Extends(old(disk.trace)) && Holds(before, disk.held)
        invariant AllPut(list, i, disk, old(disk.calls))
        invariant forall p: Place | p.File? == tabs :: Hosts.Read(disk.held, p) == old(Hosts.Read(disk.held, p))
        invariant forall p: Place | p.File? == tabs :: (p in disk.last <==> p in old(disk.last)) && (p in disk.last ==> disk.last[p] == old(disk.last)[p])
        invariant old(AllInstalled(s, disk.held, installed)) && AllInstalled(s, before, installed) && disk.Atomic(old(disk.calls)) ==>
                    disk.Safe(s, installed, old(|disk.trace|))
      {
        i := i - 1;
        HasListed(i, tabs, before, disk.held);
        var text := if !tabs && Blank(list[i].1) then None else Some(list[i].1);
        r := RestorePlace(disk, list[i].0, text, before, s, installed);
        if r.Err? {
          assert disk.PutBack(list[i].0, before, old(disk.calls));
          return;
        }
      }
      r := Ok(());
    }

    /** Whatever was recorded goes back: crontabs, then files. */
    method Restore(disk: Disk, ghost before: Host, ghost s: Stores, ghost installed: set<string>) returns (r: Result<(), Fault>)
      requires Holds(before, disk.held) && Tidy(before)
      modifies disk
      ensures disk.calls >= old(disk.calls) && disk.Extends(old(disk.trace))
      ensures r.Ok? ==> forall p: Place :: disk.Restored(p, before, old(disk.calls))
      ensures r.Err? ==> disk.RaisedPuttingBack(before, old(disk.calls))
      ensures old(AllInstalled(s, disk.held, installed)) && AllInstalled(s, before, installed) && disk.Atomic(old(disk.calls)) ==>
                disk.Safe(s, installed, old(|disk.trace|))
    {
      hide AllInstalled, Has, Effected, Faithful;
      r := RestoreList(true, disk, before, s, installed);
      if r.Err? {
        return;
      }
      assert AllPut(crontabs, 0, disk, old(disk.calls));
      r := RestoreList(false, disk, before, s, installed);
      if r.Ok? {
        AllBack(disk, before, old(disk.calls));
      }
    }

    lemma HasListed(i: nat, tab: bool, before: Host, now: Host)
      requires Holds(before, now) && i < if tab then |crontabs| else |files|
      ensures var entry := if tab then crontabs[i] else files[i];
              && Has(entry.0) && Hosts.Read(before, entry.0) == entry.1 && (tab <==> !entry.0.File?)
              && (forall j | i < j < (if tab then |crontabs| else |files|) :: (if tab then crontabs[j] else files[j]).0 != entry.0)
              && (!tab ==> forall j | 0 <= j < |crontabs| :: crontabs[j].0 != entry.0)
    {
    }

    lemma AllBack(disk: Disk, before: Host, from: nat)
      requires Holds(before, disk.held) && AllPut(crontabs, 0, disk, from) && AllPut(files, 0, disk, from)
      ensures forall p: Place :: disk.Restored(p, before, from)
    {
      forall p: Place ensures disk.Restored(p, before, from) {
        if Recorded(crontabs, p) {
          var i :| 0 <= i < |crontabs| && crontabs[i].0 == p;
        } else if Recorded(files, p) {
          var i :| 0 <= i < |files| && files[i].0 == p;
        }
      }
    }
  }

  lemma WholeIsRead(h: Host, at: Place, text: Option<Text>)
    ensures Hosts.Read(Effected(h, at, text, Whole), at) == Wanted(text)
  {
  }

  lemma RestoreKeepsInstalled(s: Stores, h: Host, before: Host, at: Place, text: Option<Text>, effect: Effect, installed: set<string>)
    requires AllInstalled(s, h, installed) && AllInstalled(s, before, installed) && !effect.Garbled?
    requires Hosts.Read(before, at) == Wanted(text)
    ensures AllInstalled(s, Effected(h, at, text, effect), installed)
  {
    hide PlaceInstalled, Tabs, Dirs;
    TabsAreTabs(s);
    ElsewhereUntouched(h, at, text, effect);
    WholeIsRead(h, at, text);
  }

  /** Blank places read as absent ones: every text stands for a string. */
  ghost predicate Tidy(h: Host) {
    forall p: Place :: Blank(Hosts.Read(h, p)) ==> Hosts.Read(h, p) == EMPTY
  }
}
