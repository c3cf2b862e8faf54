/** The directory swap of scripts/vendor_fastmcp.py: every staged tree takes its target's place, or none. */
module Promote {
  import opened Wrappers

  type Tree = map<string, string>

  /** The three siblings of a package: its directory, the copy kept aside and the staged tree. */
  datatype Place = Target | Previous | Incoming
  datatype Slot = Slot(target: Option<Tree>, previous: Option<Tree>, incoming: Option<Tree>) {
    function Get(p: Place): Option<Tree> {
      match p
      case Target => target
      case Previous => previous
      case Incoming => incoming
    }
    function Put(p: Place, t: Option<Tree>): Slot {
      match p
      case Target => this.(target := t)
      case Previous => this.(previous := t)
      case Incoming => this.(incoming := t)
    }
  }

  type Slots = map<string, Slot>

  function At(slots: Slots, package: string): Slot {
    if package in slots then slots[package] else Slot(None, None, None)
  }

  /** Where an exception is raised: as a step of a package is about to run, or after the last package.
      0 clears the old backup, 1 looks for the target, 2 moves it aside, 3 records the swap, 4 moves the
      staged tree in. A failed rename changes nothing, so it is an exception of its own step; an interrupt
      may come at any of them. */
  datatype Crash = Never | Raise(package: int, step: int)

  datatype Swap = Swap(package: string, hadPrevious: bool)

  predicate Distinct(packages: seq<string>) {
    forall j, k :: 0 <= j < k < |packages| ==> packages[j] != packages[k]
  }

  /** What rmtree(ignore_errors=True) cannot remove, and what it leaves of a tree there. Rolling back is
      taken to succeed, so no target is stuck. */
  datatype Faults = Faults(stuck: set<(string, Place)>, remnant: Tree -> Tree, crash: Crash) {
    function Removed(package: string, p: Place, t: Option<Tree>): Option<Tree> {
      if t.Some? && (package, p) in stuck then Some(remnant(t.value)) else None
    }
    predicate TargetsComeOff() { forall x :: x in stuck ==> x.1 != Target }
  }

  /** A directory may be moved to a free place or onto an empty directory. */
  predicate CanRename(src: Option<Tree>, dst: Option<Tree>) { src.Some? && (dst.None? || dst.value == map[]) }

  // ---- one package ----------------------------------------------------------------------------------------

  function Cleared(f: Faults, package: string, s: Slot): Slot {
    s.(previous := f.Removed(package, Previous, s.previous))
  }

  function Aside(s: Slot): Slot { if s.target.Some? then s.(target := None, previous := s.target) else s }

  function MovedIn(s: Slot): Slot { s.(target := s.incoming, incoming := None) }

  /** Whether both renames of a package can go through. */
  predicate CanSwap(f: Faults, package: string, s: Slot) {
    s.incoming.Some? && (s.target.Some? ==> CanRename(s.target, Cleared(f, package, s).previous))
  }

  function Swapped(f: Faults, package: string, s: Slot): Slot { MovedIn(Aside(Cleared(f, package, s))) }

  function Restored(s: Slot, hadPrevious: bool): Slot {
    if hadPrevious then Slot(s.previous, None, s.incoming) else s.(target := None)
  }

  function Dropped(f: Faults, package: string, p: Place, s: Slot): Slot { s.Put(p, f.Removed(package, p, s.Get(p))) }

  // ---- one turn --------------------------------------------------------------------------------

  /** How far a turn gets: the step it fails at, or 5. */
  function Reached(f: Faults, i: int, package: string, s: Slot): (step: int)
    ensures 0 <= step <= 5
  {
    var asideFails := s.target.Some? && !CanRename(s.target, Cleared(f, package, s).previous);
    var stop := if asideFails then 2 else if s.incoming.None? then 4 else 5;
    if f.crash.Raise? && f.crash.package == i && 0 <= f.crash.step < stop then f.crash.step else stop
  }

  predicate Recorded(f: Faults, i: int, package: string, s: Slot) { Reached(f, i, package, s) >= 4 }

  function AfterTurn(f: Faults, i: int, package: string, s: Slot): Slot {
    var step := Reached(f, i, package, s);
    if step == 0 then s
    else if step <= 2 then Cleared(f, package, s)
    else if step <= 4 then Aside(Cleared(f, package, s))
    else Swapped(f, package, s)
  }

  /** A turn goes through exactly when both renames can and nothing is raised in it. */
  lemma TurnGoesThrough(f: Faults, i: int, package: string, s: Slot)
    ensures Reached(f, i, package, s) == 5 <==>
            CanSwap(f, package, s) && !(f.crash.Raise? && f.crash.package == i && 0 <= f.crash.step <= 4)
  {
  }

  /** The turn that fails first, or the number of packages. */
  function FirstFailure(f: Faults, packages: seq<string>, slots: Slots, i: int): (n: int)
    requires 0 <= i <= |packages|
    ensures i <= n <= |packages|
    ensures forall k :: i <= k < n ==> Reached(f, k, packages[k], At(slots, packages[k])) == 5
    ensures n < |packages| ==> Reached(f, n, packages[n], At(slots, packages[n])) < 5
    decreases |packages| - i
  {
    if i == |packages| || Reached(f, i, packages[i], At(slots, packages[i])) < 5 then i
    else FirstFailure(f, packages, slots, i + 1)
  }

  predicate Fails(f: Faults, packages: seq<string>, slots: Slots) {
    FirstFailure(f, packages, slots, 0) < |packages| || f.crash == Raise(|packages|, 0)
  }

  /** An exception between moving a target aside and recording it: nothing will move it back. */
  predicate Lost(f: Faults, packages: seq<string>, slots: Slots, k: int)
    requires 0 <= k < |packages|
  {
    && k == FirstFailure(f, packages, slots, 0)
    && f.crash == Raise(k, 3)
    && Reached(f, k, packages[k], At(slots, packages[k])) == 3
    && At(slots, packages[k]).target.Some?
  }

  class Disk {
    var slots: Slots

    constructor (slots: Slots)
      ensures this.slots == slots
    {
      this.slots := slots;
    }

    method Rmtree(f: Faults, package: string, p: Place)
      modifies this
      ensures At(slots, package) == Dropped(f, package, p, At(old(slots), package))
      ensures forall q :: q != package ==> At(slots, q) == At(old(slots), q)
    {
      var s := At(slots, package);
      slots := slots[package := s.Put(p, f.Removed(package, p, s.Get(p)))];
    }

    method Rename(package: string, src: Place, dst: Place) returns (ok: bool)
      requires src != dst
      modifies this
      ensures ok == CanRename(At(old(slots), package).Get(src), At(old(slots), package).Get(dst))
      ensures At(slots, package) ==
              var s := At(old(slots), package); if ok then s.Put(dst, s.Get(src)).Put(src, None) else s
      ensures forall q :: q != package ==> At(slots, q) == At(old(slots), q)
    {
      var s := At(slots, package);
      ok := s.Get(src).Some? && (s.Get(dst).None? || s.Get(dst).value == map[]);
      if ok { slots := slots[package := s.Put(dst, s.Get(src)).Put(src, None)]; }
    }

    /** Undo the recorded swaps, the latest first. */
    method Restore(f: Faults, swapped: seq<Swap>)
      requires f.TargetsComeOff()
      requires forall j, k :: 0 <= j < k < |swapped| ==> swapped[j].package != swapped[k].package
      requires forall k :: 0 <= k < |swapped| && swapped[k].hadPrevious ==> At(slots, swapped[k].package).previous.Some?
      modifies this
      ensures forall k :: 0 <= k < |swapped| ==>
                At(slots, swapped[k].package) == Restored(At(old(slots), swapped[k].package), swapped[k].hadPrevious)
      ensures forall p :: (forall k :: 0 <= k < |swapped| ==> swapped[k].package != p) ==>
                At(slots, p) == At(old(slots), p)
    {
      var k := |swapped|;
      while k > 0
        invariant 0 <= k <= |swapped|
        invariant forall j :: 0 <= j < k ==> At(slots, swapped[j].package) == At(old(slots), swapped[j].package)
        invariant forall j :: k <= j < |swapped| ==>
                    At(slots, swapped[j].package) ==
                        Restored(At(old(slots), swapped[j].package), swapped[j].hadPrevious)
        invariant forall p :: (forall j :: 0 <= j < |swapped| ==> swapped[j].package != p) ==>
                  At(slots, p) == At(old(slots), p)
      {
        k := k - 1;
        var s := swapped[k];
        Rmtree(f, s.package, Target);
        assert (s.package, Target) !in f.stuck;
        if s.hadPrevious {
          var ok := Rename(s.package, Previous, Target);
          assert ok;
        }
      }
    }

    /** Clear one place of every package. */
    method DropAll(f: Faults, packages: seq<string>, p: Place)
      requires Distinct(packages)
      modifies this
      ensures forall k :: 0 <= k < |packages| ==>
                At(slots, packages[k]) == Dropped(f, packages[k], p, At(old(slots), packages[k]))
      ensures forall q :: q !in packages ==> At(slots, q) == At(old(slots), q)
    {
      for i := 0 to |packages|
        invariant forall k :: 0 <= k < i ==>
                  At(slots, packages[k]) ==
                  Dropped(f, packages[k], p, At(old(slots), packages[k]))
        invariant forall k :: i <= k < |packages| ==> At(slots, packages[k]) == At(old(slots), packages[k])
        invariant forall q :: q !in packages ==> At(slots, q) == At(old(slots), q)
      {
        Rmtree(f, packages[i], p);
      }
    }

    /** One turn of the forward loop. `failed` when the turn raised; `recorded` once the swap is on the list. */
    method SwapOne(f: Faults, i: int, package: string) returns (failed: bool, recorded: bool, had: bool)
      modifies this
      ensures forall q :: q != package ==> At(slots, q) == At(old(slots), q)
      ensures had ==> At(old(slots), package).target.Some?
      ensures recorded ==> had == At(old(slots), package).target.Some?
      ensures At(slots, package) == AfterTurn(f, i, package, At(old(slots), package))
      ensures failed == (Reached(f, i, package, At(old(slots), package)) < 5)
      ensures recorded == Recorded(f, i, package, At(old(slots), package))
    {
      failed, recorded, had := true, false, false;
      if f.crash == Raise(i, 0) { return; }
      Rmtree(f, package, Previous);
      if f.crash == Raise(i, 1) { return; }
      had := At(slots, package).target.Some?;
      if f.crash == Raise(i, 2) { return; }
      if had {
        var ok := Rename(package, Target, Previous);
        if !ok { return; }
      }
      if f.crash == Raise(i, 3) { return; }
      recorded := true;
      if f.crash == Raise(i, 4) { return; }
      var ok := Rename(package, Incoming, Target);
      failed := !ok;
    }

    /** The forward loop: every package before the first failure is swapped and recorded. */
    method Forward(f: Faults, packages: seq<string>) returns (raised: bool, swapped: seq<Swap>)
      requires Distinct(packages)
      modifies this
      ensures raised == Fails(f, packages, old(slots))
      ensures swapped == Record(f, packages, old(slots))
      ensures forall k :: 0 <= k < |packages| ==>
                At(slots, packages[k]) == AfterForward(f, packages, old(slots), k, At(old(slots), packages[k]))
      ensures forall q :: q !in packages ==> At(slots, q) == At(old(slots), q)
    {
      hide Reached, FirstFailure, AfterTurn, SwapsOf;
      raised, swapped := false, [];
      var i := 0;
      while i < |packages|
        invariant 0 <= i <= FirstFailure(f, packages, old(slots), 0)
        invariant swapped == SwapsOf(packages[..i], old(slots))
        invariant forall k :: 0 <= k < i ==>
                  At(slots, packages[k]) ==
                  AfterTurn(f, k, packages[k], At(old(slots), packages[k]))
        invariant forall k :: i <= k < |packages| ==> At(slots, packages[k]) == At(old(slots), packages[k])
        invariant forall q :: q !in packages ==> At(slots, q) == At(old(slots), q)
      {
        MoreSwaps(packages, i, old(slots));
        var failed, recorded, had := SwapOne(f, i, packages[i]);
        assert packages[..i + 1][..i] == packages[..i];
        if recorded { swapped := swapped + [Swap(packages[i], had)]; }
        if failed {
          assert FirstFailure(f, packages, old(slots), 0) == i;
          raised := true;
          return;
        }
        i := i + 1;
      }
      assert packages[..i] == packages;
      raised := f.crash == Raise(|packages|, 0);
    }

    /** Every target holds its staged tree, with no backup and no staging left but what cannot be removed;
        or, when something is raised, every target is as it was and the staging is gone -- except the one
        target moved aside and not yet recorded, which stays in the backup. */
    method Promote(f: Faults, packages: seq<string>) returns (raised: bool)
      requires Distinct(packages) && f.TargetsComeOff()
      modifies this
      ensures raised == Fails(f, packages, old(slots))
      ensures !raised ==> forall k :: 0 <= k < |packages| ==>
                AllIn(f, packages[k], At(old(slots), packages[k]), At(slots, packages[k]))
      ensures raised ==> forall k :: 0 <= k < |packages| ==>
                NothingIn(f, packages[k], Lost(f, packages, old(slots), k), At(old(slots), packages[k]),
                    At(slots, packages[k]))
      ensures forall q :: q !in packages ==> At(slots, q) == At(old(slots), q)
    {
      hide Record, AfterForward, Restored, AllIn, NothingIn, Dropped, Lost, Fails;
      ghost var was := slots;
      var swapped: seq<Swap>;
      raised, swapped := Forward(f, packages);
      if raised {
        RecordShape(f, packages, was);
        forall k | 0 <= k < |swapped| && swapped[k].hadPrevious ensures At(slots, swapped[k].package).previous.Some? {
          RolledBack(f, packages, was, k);
        }
        Restore(f, swapped);
        DropAll(f, packages, Incoming);
        forall k | 0 <= k < |packages|
          ensures NothingIn(f, packages[k], Lost(f, packages, was, k), At(was, packages[k]), At(slots, packages[k]))
        {
          RolledBack(f, packages, was, k);
        }
      } else {
        DropAll(f, packages, Previous);
        forall k | 0 <= k < |packages| ensures AllIn(f, packages[k], At(was, packages[k]), At(slots, packages[k])) {
          SwappedIn(f, packages, was, k);
        }
      }
    }
  }

  lemma MoreSwaps(packages: seq<string>, i: int, slots: Slots)
    requires 0 <= i < |packages|
    ensures SwapsOf(packages[..i + 1], slots) ==
            SwapsOf(packages[..i], slots) + [Swap(packages[i], At(slots, packages[i]).target.Some?)]
  {
    assert packages[..i + 1][..i] == packages[..i];
  }

  function SwapsOf(packages: seq<string>, slots: Slots): (swapped: seq<Swap>)
    ensures |swapped| == |packages|
    ensures forall k :: 0 <= k < |packages| ==> swapped[k] == Swap(packages[k], At(slots, packages[k]).target.Some?)
  {
    if packages == [] then []
    else
      var last := packages[|packages| - 1];
      SwapsOf(packages[..|packages| - 1], slots) + [Swap(last, At(slots, last).target.Some?)]
  }

  /** The swaps recorded when the forward loop ends. */
  function Record(f: Faults, packages: seq<string>, slots: Slots): seq<Swap> {
    var n := FirstFailure(f, packages, slots, 0);
    if n < |packages| && Recorded(f, n, packages[n], At(slots, packages[n])) then SwapsOf(packages[..n + 1], slots)
    else SwapsOf(packages[..n], slots)
  }

  function AfterForward(f: Faults, packages: seq<string>, slots: Slots, k: int, s: Slot): Slot
    requires 0 <= k < |packages|
  {
    var n := FirstFailure(f, packages, slots, 0);
    if k <= n then AfterTurn(f, k, packages[k], s) else s
  }

  /** The staged tree is in; what is left of the backup could not be removed. */
  ghost predicate AllIn(f: Faults, package: string, before: Slot, after: Slot) {
    && before.incoming.Some? && after.target == before.incoming && after.incoming == None
    && (after.previous.Some? ==> (package, Previous) in f.stuck)
  }

  /** The target is as before, or lost to the backup; what is left of the staging could not be removed. */
  ghost predicate NothingIn(f: Faults, package: string, lost: bool, before: Slot, after: Slot) {
    && after.target == (if lost then None else before.target)
    && (lost ==> after.previous == before.target)
    && (after.incoming.Some? ==> (package, Incoming) in f.stuck)
  }

  lemma RecordShape(f: Faults, packages: seq<string>, slots: Slots)
    requires Distinct(packages)
    ensures var swapped := Record(f, packages, slots);
            && |swapped| <= |packages|
            && (forall k :: 0 <= k < |swapped| ==> swapped[k] == Swap(packages[k], At(slots, packages[k]).target.Some?))
            && (forall j, k :: 0 <= j < k < |swapped| ==> swapped[j].package != swapped[k].package)
  {
  }

  /** Undoing what was recorded of a package and clearing its staging gives its target back, unless the
      failing turn had moved the target and not recorded it. */
  lemma RolledBack(f: Faults, packages: seq<string>, slots: Slots, k: int)
    requires Distinct(packages) && 0 <= k < |packages|
    ensures var s := At(slots, packages[k]);
            var mid := AfterForward(f, packages, slots, k, s);
            var recorded := k < |Record(f, packages, slots)|;
            var after := if recorded then Restored(mid, s.target.Some?) else mid;
            && (recorded && s.target.Some? ==> mid.previous.Some?)
            && NothingIn(f, packages[k], Lost(f, packages, slots, k), s, Dropped(f, packages[k], Incoming, after))
  {
    hide FirstFailure, SwapsOf;
  }

  lemma SwappedIn(f: Faults, packages: seq<string>, slots: Slots, k: int)
    requires 0 <= k < |packages| && !Fails(f, packages, slots)
    ensures var s := At(slots, packages[k]);
            AllIn(f, packages[k], s, Dropped(f, packages[k], Previous, AfterForward(f, packages, slots, k, s)))
  {
    hide FirstFailure;
  }

  /** A target is lost exactly when an exception comes between moving it aside and recording that, in a
      run that gets so far: there is a target, it can be moved, and every earlier package can be swapped. */
  lemma LostExactly(f: Faults, packages: seq<string>, slots: Slots, k: int)
    requires 0 <= k < |packages|
    ensures Lost(f, packages, slots, k) <==>
            && f.crash == Raise(k, 3)
            && CanRename(At(slots, packages[k]).target, Cleared(f, packages[k], At(slots, packages[k])).previous)
            && forall j :: 0 <= j < k ==> CanSwap(f, packages[j], At(slots, packages[j]))
  {
    hide FirstFailure;
    var n := FirstFailure(f, packages, slots, 0);
    forall j | 0 <= j < n ensures CanSwap(f, packages[j], At(slots, packages[j])) {
      TurnGoesThrough(f, j, packages[j], At(slots, packages[j]));
    }
    if n < k {
      TurnGoesThrough(f, n, packages[n], At(slots, packages[n]));
    }
  }
}
