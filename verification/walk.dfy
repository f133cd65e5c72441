/** The walk of a branch, page after page (internal/snmp/snmp.go). */
module Walks {
  import opened Wrappers
  import opened Ber
  import opened Oids
  import opened Snmp
  import opened Agents

  const PAGES: nat := 100000
  const DEFAULT_REPETITIONS: int := 20

  datatype WalkError<E> = Failed(e: E) | NotIncreasing | Endless

  datatype Outcome<E> = Outcome(out: seq<VarBind>, err: Option<WalkError<E>>)

  /** The n-th exchange, asking for rep objects after an identifier. The agent is arbitrary. */
  type Exchange<E> = (nat, Name, int) -> Result<seq<VarBind>, E>

  predicate Under(vbs: seq<VarBind>, root: Name) {
    forall vb | vb in vbs :: HasPrefix(vb.oid, root)
  }

  // ------------------------------------------------------------ definition

  datatype Scanned = More(out: seq<VarBind>) | Stop(out: seq<VarBind>, increasing: bool)

  /** Takes the objects of a page until one leaves the branch or goes back. */
  function Scan(vbs: seq<VarBind>, root: Name, out: seq<VarBind>): Scanned {
    if vbs == [] then More(out)
    else if vbs[0].value.EndOfMib? || !HasPrefix(vbs[0].oid, root) then Stop(out, true)
    else if out != [] && !Less(out[|out| - 1].oid, vbs[0].oid) then Stop(out, false)
    else Scan(vbs[1..], root, out + [vbs[0]])
  }

  /** The walk from next, its n-th exchange being due and pages of them allowed. */
  function WalkFrom<E>(ask: Exchange<E>, root: Name, rep: int, next: Name, out: seq<VarBind>, n: nat, pages: nat): Outcome<E>
    decreases pages
  {
    if pages == 0 then Outcome(out, Some(Endless))
    else
      match ask(n, next, rep)
      case Err(e) => Outcome(out, Some(Failed(e)))
      case Ok(vbs) =>
        if vbs == [] then Outcome(out, None)
        else
          match Scan(vbs, root, out)
          case Stop(found, increasing) => Outcome(found, if increasing then None else Some(NotIncreasing))
          case More(found) => WalkFrom(ask, root, rep, vbs[|vbs| - 1].oid, found, n + 1, pages - 1)
  }

  function Repetitions(maxRepetitions: int): int {
    if maxRepetitions <= 0 then DEFAULT_REPETITIONS else maxRepetitions
  }

  // ------------------------------------------------------------- the walk

  /**
   * Whatever the agent answers, the walk stops within 100000 exchanges, and
   * what it returns, even with an error, increases strictly and lies under root.
   */
  method Walk<E>(ask: Exchange<E>, root: Name, maxRepetitions: int) returns (r: Outcome<E>, exchanges: nat)
    ensures r == WalkFrom(ask, root, Repetitions(maxRepetitions), root, [], 0, PAGES)
    ensures Sorted(r.out) && Under(r.out, root)
    ensures exchanges <= 100000
    ensures r.err == Some(Endless) ==> exchanges == 100000
  {
    var rep := maxRepetitions;
    if rep <= 0 {
      rep := DEFAULT_REPETITIONS;
    }
    var out: seq<VarBind> := [];
    var next := root;
    for n := 0 to PAGES
      invariant WalkFrom(ask, root, rep, next, out, n, PAGES - n) == WalkFrom(ask, root, rep, root, [], 0, PAGES)
      invariant Sorted(out) && Under(out, root)
    {
      var page := ask(n, next, rep);
      if page.Err? {
        return Outcome(out, Some(Failed(page.error))), n + 1;
      }
      var vbs := page.value;
      if |vbs| == 0 {
        return Outcome(out, None), n + 1;
      }
      var scanned := TakePage(vbs, root, out);
      out := scanned.out;
      if scanned.Stop? {
        return Outcome(out, if scanned.increasing then None else Some(NotIncreasing)), n + 1;
      }
      next := vbs[|vbs| - 1].oid;
    }
    return Outcome(out, Some(Endless)), PAGES;
  }

  method TakePage(vbs: seq<VarBind>, root: Name, before: seq<VarBind>) returns (s: Scanned)
    requires Sorted(before) && Under(before, root)
    ensures s == Scan(vbs, root, before)
    ensures Sorted(s.out) && Under(s.out, root)
  {
    var out := before;
    for i := 0 to |vbs|
      invariant Scan(vbs[i..], root, out) == Scan(vbs, root, before)
      invariant Sorted(out) && Under(out, root)
    {
      var vb := vbs[i];
      assert vbs[i..][1..] == vbs[i + 1..];
      var inside := InBranch(vb.oid, root);
      if vb.value.EndOfMib? || !inside {
        return Stop(out, true);
      }
      if |out| > 0 {
        var c := Compare(vb.oid, out[|out| - 1].oid);
        LessTotal(vb.oid, out[|out| - 1].oid);
        if c <= 0 {
          return Stop(out, false);
        }
      }
      SortedSnoc(out, vb);
      out := out + [vb];
    }
    return More(out);
  }

  lemma SortedSnoc(vbs: seq<VarBind>, vb: VarBind)
    requires Sorted(vbs) && (vbs != [] ==> Less(vbs[|vbs| - 1].oid, vb.oid))
    ensures Sorted(vbs + [vb])
  {
    forall i | 0 <= i < |vbs|
      ensures Less(vbs[i].oid, vb.oid)
    {
      if i < |vbs| - 1 {
        LessTransitive(vbs[i].oid, vbs[|vbs| - 1].oid, vb.oid);
      }
    }
  }

  // ------------------------------------------------ walking a faithful agent

  /** The agent of this package, its answers reaching the client as they are. */
  function Asking(objects: seq<VarBind>): Exchange<()> {
    (n: nat, o: Name, rep: int) => Ok(Bulk(objects, rep, o))
  }

  predicate InScope(o: Oid, root: Name) {
    Less(root, o) && HasPrefix(o, root)
  }

  /** An object as a client reads it. */
  function AsRead(vb: VarBind): VarBind {
    VarBind(vb.oid, Canon(vb.value))
  }

  function AllAsRead(vbs: seq<VarBind>): (r: seq<VarBind>)
    ensures |r| == |vbs| && forall i :: 0 <= i < |vbs| ==> r[i] == AsRead(vbs[i])
  {
    if vbs == [] then [] else [AsRead(vbs[0])] + AllAsRead(vbs[1..])
  }

  predicate Plain(vbs: seq<VarBind>) {
    forall i :: 0 <= i < |vbs| ==> AsRead(vbs[i]) == vbs[i]
  }

  /** The client cannot tell an object from what it reads of it. */
  lemma {:induction false} NextAsRead(objects: seq<VarBind>, o: Oid, left: int)
    ensures NextObjects(AllAsRead(objects), o, left) == NextObjects(objects, o, left)
  {
    if objects != [] {
      NextAsRead(objects[1..], o, left);
      NextAsRead(objects[1..], o, left - 1);
    }
  }

  /** The objects strictly after root and under it, in order. */
  function Branch(objects: seq<VarBind>, root: Name): seq<VarBind> {
    if objects == [] then []
    else if InScope(objects[0].oid, root) then [AsRead(objects[0])] + Branch(objects[1..], root)
    else Branch(objects[1..], root)
  }

  lemma {:induction false} BranchAsRead(objects: seq<VarBind>, root: Name)
    ensures Branch(AllAsRead(objects), root) == Branch(objects, root)
  {
    if objects != [] {
      BranchAsRead(objects[1..], root);
    }
  }

  /** The objects of [p, q) are those of the branch; those before p are not after root. */
  predicate Bounds(objects: seq<VarBind>, root: Name, p: nat, q: nat) {
    && p <= q <= |objects|
    && (forall i :: 0 <= i < p ==> !Less(root, objects[i].oid))
    && (forall i :: p <= i < |objects| ==> Less(root, objects[i].oid))
    && (forall i :: p <= i < |objects| ==> (HasPrefix(objects[i].oid, root) <==> i < q))
  }

  /** Past the first object outside it, a branch is over. */
  lemma NoneAfter(objects: seq<VarBind>, root: Name)
    requires Sorted(objects) && objects != []
    requires Less(root, objects[0].oid) && !HasPrefix(objects[0].oid, root)
    ensures forall i :: 0 <= i < |objects| ==> !HasPrefix(objects[i].oid, root)
  {
    forall i | 0 <= i < |objects|
      ensures !HasPrefix(objects[i].oid, root)
    {
      if i > 0 && HasPrefix(objects[i].oid, root) {
        BranchContiguous(root, objects[0].oid, objects[i].oid, root);
      }
    }
  }

  lemma SliceCons<T>(s: seq<T>, n: nat)
    requires 0 < n <= |s|
    ensures s[..n] == [s[0]] + s[1..][..n - 1]
  {}

  /** One object more, before those of the branch. */
  lemma BoundsBefore(objects: seq<VarBind>, root: Name, p: nat, q: nat)
    requires objects != [] && Bounds(objects[1..], root, p, q) && !Less(root, objects[0].oid)
    ensures Bounds(objects, root, p + 1, q + 1)
    ensures objects[p + 1..q + 1] == objects[1..][p..q]
  {
    SubSlice(objects, 1, |objects|, p, q);
  }

  /** One object more, in the branch. */
  lemma BoundsInside(objects: seq<VarBind>, root: Name, q: nat)
    requires objects != [] && Bounds(objects[1..], root, 0, q) && InScope(objects[0].oid, root)
    ensures Bounds(objects, root, 0, q + 1)
    ensures objects[..q + 1] == [objects[0]] + objects[1..][..q]
  {
    SliceCons(objects, q + 1);
  }

  /** A branch is one run of the sorted objects. */
  lemma {:induction false} BranchIsRun(objects: seq<VarBind>, root: Name) returns (p: nat, q: nat)
    requires Sorted(objects) && Plain(objects)
    ensures Bounds(objects, root, p, q)
    ensures Branch(objects, root) == objects[p..q]
  {
    if objects == [] {
      return 0, 0;
    }
    p, q := BranchIsRun(objects[1..], root);
    if !Less(root, objects[0].oid) {
      BoundsBefore(objects, root, p, q);
      return p + 1, q + 1;
    }
    if p > 0 {
      LessTransitive(root, objects[0].oid, objects[1].oid);
    }
    if HasPrefix(objects[0].oid, root) {
      BoundsInside(objects, root, q);
      return 0, q + 1;
    }
    NoneAfter(objects, root);
    return 0, 0;
  }

  /** Exactly k of the sorted objects are not after o. */
  predicate Position(objects: seq<VarBind>, o: Oid, k: nat) {
    && k <= |objects|
    && (forall i :: 0 <= i < k ==> !Less(o, objects[i].oid))
    && (forall i :: k <= i < |objects| ==> Less(o, objects[i].oid))
  }

  lemma PositionRest(objects: seq<VarBind>, o: Oid, k: nat)
    requires Position(objects, o, k) && objects != []
    ensures Position(objects[1..], o, if k == 0 then 0 else k - 1)
  {}

  /** When all objects come after o, the page is the first ones. */
  lemma {:induction false} NextFromFirst(objects: seq<VarBind>, o: Oid, left: nat)
    requires Plain(objects) && Position(objects, o, 0)
    ensures NextObjects(objects, o, left) == objects[..Min(left, |objects|)]
  {
    if objects != [] && left != 0 {
      PositionRest(objects, o, 0);
      NextFromFirst(objects[1..], o, left - 1);
      SliceCons(objects, Min(left, |objects|));
    }
  }

  /** In sorted objects, what follows an identifier is a slice. */
  lemma {:induction false} NextIsSlice(objects: seq<VarBind>, o: Oid, left: nat, k: nat)
    requires Plain(objects) && Position(objects, o, k)
    ensures NextObjects(objects, o, left) == objects[k..Min(k + left, |objects|)]
  {
    if k == 0 {
      NextFromFirst(objects, o, left);
    } else if left != 0 {
      PositionRest(objects, o, k);
      NextIsSlice(objects[1..], o, left, k - 1);
      SubSlice(objects, 1, |objects|, k - 1, Min(k - 1 + left, |objects| - 1));
    }
  }

  function Min(x: int, y: int): int {
    if x <= y then x else y
  }

  /** Objects of the branch that go on increasing are all taken. */
  lemma {:induction false} ScanTakes(good: seq<VarBind>, rest: seq<VarBind>, root: Name, out: seq<VarBind>)
    requires Sorted(out + good)
    requires forall vb | vb in good :: !vb.value.EndOfMib? && HasPrefix(vb.oid, root)
    ensures Scan(good + rest, root, out) == Scan(rest, root, out + good)
  {
    if good == [] {
      assert good + rest == rest && out + good == out;
    } else {
      var all := out + good;
      if out != [] {
        assert all[|out| - 1] == out[|out| - 1] && all[|out|] == good[0];
      }
      assert (good + rest)[1..] == good[1..] + rest;
      assert all == (out + [good[0]]) + good[1..];
      ScanTakes(good[1..], rest, root, out + [good[0]]);
    }
  }

  lemma PositionOf(objects: seq<VarBind>, i: nat)
    requires Sorted(objects) && i < |objects|
    ensures Position(objects, objects[i].oid, i + 1)
  {
    forall j | 0 <= j < |objects|
      ensures j <= i ==> !Less(objects[i].oid, objects[j].oid)
    {
      LessTotal(objects[i].oid, objects[j].oid);
    }
  }

  /** A page of the branch, what follows it in the answer, and where the walk stands after it. */
  lemma PageOfBranch(objects: seq<VarBind>, root: Name, rep: nat, next: Name, p: nat, q: nat, k: nat)
    returns (good: seq<VarBind>, rest: seq<VarBind>)
    requires Plain(objects) && Bounds(objects, root, p, q) && p <= k <= q && rep >= 1
    requires Position(objects, next, k)
    ensures good == objects[k..Min(k + rep, q)]
    ensures Bulk(objects, rep, next) == good + rest
    ensures if k + rep <= q then rest == []
            else rest != [] && (rest[0].value.EndOfMib? || !HasPrefix(rest[0].oid, root))
  {
    NextIsSlice(objects, next, rep, k);
    var page := Bulk(objects, rep, next);
    good := objects[k..Min(k + rep, q)];
    rest := page[|good|..];
    assert good <= page;
    if k + rep > q {
      if q < |objects| {
        assert page[q - k] == objects[q];
      } else {
        assert page[q - k] == VarBind(next, EndOfMib);
      }
    }
  }

  /** Scanning a page of the branch, all of it being known. */
  lemma ScanPage(all: seq<VarBind>, root: Name, rep: nat, k: nat, good: seq<VarBind>, rest: seq<VarBind>)
    requires Sorted(all) && k <= |all|
    requires forall vb | vb in all :: !vb.value.EndOfMib? && HasPrefix(vb.oid, root)
    requires good == all[k..Min(k + rep, |all|)]
    requires if k + rep <= |all| then rest == []
             else rest != [] && (rest[0].value.EndOfMib? || !HasPrefix(rest[0].oid, root))
    ensures Scan(good + rest, root, all[..k]) == (if k + rep <= |all| then More(all[..k + rep]) else Stop(all, true))
    ensures k + rep <= |all| && rep > 0 ==> (good + rest)[|good + rest| - 1] == all[k + rep - 1]
  {
    var stop := Min(k + rep, |all|);
    assert all[..k] + good == all[..stop];
    assert all[..|all|] == all;
    ScanTakes(good, rest, root, all[..k]);
  }

  /** Where the walk goes on from, having taken out. */
  function NextOf(root: Name, out: seq<VarBind>): Name {
    if out == [] then root else out[|out| - 1].oid
  }

  /** What the given number of full pages hold. */
  function Held(pages: nat, rep: nat): nat {
    if pages == 0 then 0 else rep + Held(pages - 1, rep)
  }

  lemma {:induction false} HeldIsProduct(pages: nat, rep: nat)
    ensures Held(pages, rep) == pages * rep
  {
    if pages > 0 {
      HeldIsProduct(pages - 1, rep);
    }
  }

  /** What n full pages of all leave to the walk. */
  function WalkAfter<E>(ask: Exchange<E>, root: Name, rep: nat, all: seq<VarBind>, n: nat, pages: nat): Outcome<E>
    requires n <= pages && Held(n, rep) <= |all|
  {
    var out := all[..Held(n, rep)];
    WalkFrom(ask, root, rep, NextOf(root, out), out, n, pages - n)
  }

  /** Exchange n is due: the pages before it were full. */
  predicate Due(all: seq<VarBind>, rep: nat, n: nat, pages: nat) {
    n < pages && Held(n, rep) <= |all|
  }

  /** The walk takes a full page more or ends with all. */
  predicate GoesOn<E(==)>(ask: Exchange<E>, root: Name, rep: nat, all: seq<VarBind>, n: nat, pages: nat)
    requires Due(all, rep, n, pages)
  {
    WalkAfter(ask, root, rep, all, n, pages) ==
    if Held(n + 1, rep) <= |all| then WalkAfter(ask, root, rep, all, n + 1, pages) else Outcome(all, None)
  }

  /** An object that does not come after those taken. */
  predicate GoesBack(taken: seq<VarBind>, vb: VarBind) {
    taken != [] && !Less(taken[|taken| - 1].oid, vb.oid)
  }

  /**
   * Where a walk ends, whatever the agent: at an error of the exchange, at an
   * empty page, at the first object outside the branch or that marks the end,
   * all without complaint but the first; and at the first object that does not
   * come after the one before, which is an error. What was taken is returned.
   */
  lemma WalkEnds<E>(ask: Exchange<E>, root: Name, rep: int, next: Name, out: seq<VarBind>, n: nat, pages: nat,
                    good: seq<VarBind>, bad: VarBind, rest: seq<VarBind>)
    requires pages > 0 && Sorted(out + good) && forall vb | vb in good :: !vb.value.EndOfMib? && HasPrefix(vb.oid, root)
    ensures var r := WalkFrom(ask, root, rep, next, out, n, pages);
            && (ask(n, next, rep).Err? ==> r == Outcome(out, Some(Failed(ask(n, next, rep).error))))
            && (ask(n, next, rep) == Ok([]) ==> r == Outcome(out, None))
            && (ask(n, next, rep) == Ok(good + ([bad] + rest)) && (bad.value.EndOfMib? || !HasPrefix(bad.oid, root)) ==>
                  r == Outcome(out + good, None))
            && (ask(n, next, rep) == Ok(good + ([bad] + rest)) && !bad.value.EndOfMib? && HasPrefix(bad.oid, root)
                && GoesBack(out + good, bad) ==>
                  r == Outcome(out + good, Some(NotIncreasing)))
  {
    ScanTakes(good, [bad] + rest, root, out);
  }

  lemma {:induction false} WalkReaches<E>(ask: Exchange<E>, root: Name, rep: nat, all: seq<VarBind>, n: nat, pages: nat)
    requires n <= pages && Held(n, rep) <= |all|
    requires forall m: nat | m < n && Due(all, rep, m, pages) :: GoesOn(ask, root, rep, all, m, pages)
    ensures WalkAfter(ask, root, rep, all, 0, pages) == WalkAfter(ask, root, rep, all, n, pages)
  {
    if n > 0 {
      WalkReaches(ask, root, rep, all, n - 1, pages);
      assert Due(all, rep, n - 1, pages);
      assert GoesOn(ask, root, rep, all, n - 1, pages);
    }
  }

  /** The walk that fails at exchange n, having got full pages before. */
  lemma WalkFails<E>(ask: Exchange<E>, root: Name, rep: nat, all: seq<VarBind>, n: nat, pages: nat, e: E)
    requires Due(all, rep, n, pages)
    requires forall m: nat | m < n && Due(all, rep, m, pages) :: GoesOn(ask, root, rep, all, m, pages)
    requires ask(n, NextOf(root, all[..Held(n, rep)]), rep) == Err(e)
    ensures WalkFrom(ask, root, rep, root, [], 0, pages) == Outcome(all[..Held(n, rep)], Some(Failed(e)))
  {
    assert all[..0] == [];
    WalkReaches(ask, root, rep, all, n, pages);
  }

  lemma {:induction false} WalkRun<E>(ask: Exchange<E>, root: Name, rep: nat, all: seq<VarBind>, n: nat, pages: nat)
    requires n <= pages && Held(n, rep) <= |all|
    requires forall m: nat | Due(all, rep, m, pages) :: GoesOn(ask, root, rep, all, m, pages)
    ensures WalkAfter(ask, root, rep, all, n, pages) ==
            if Held(pages, rep) <= |all| then Outcome(all[..Held(pages, rep)], Some(Endless)) else Outcome(all, None)
    decreases pages - n
  {
    if n < pages {
      assert Due(all, rep, n, pages) && GoesOn(ask, root, rep, all, n, pages);
      if Held(n + 1, rep) <= |all| {
        WalkRun(ask, root, rep, all, n + 1, pages);
      } else {
        HeldGrows(n + 1, pages, rep);
      }
    }
  }

  lemma {:induction false} HeldGrows(m: nat, n: nat, rep: nat)
    requires m <= n
    ensures Held(m, rep) <= Held(n, rep)
  {
    if m < n {
      HeldGrows(m, n - 1, rep);
    }
  }

  /** When every exchange gives the agent's page: the whole branch, or what the pages hold of it. */
  lemma WalkOfPages<E>(ask: Exchange<E>, objects: seq<VarBind>, root: Name, rep: nat, pages: nat)
    requires Sorted(objects) && rep >= 1
    requires forall n: nat | Due(Branch(objects, root), rep, n, pages) :: Gives(ask, objects, root, rep, n)
    ensures var all := Branch(objects, root);
            WalkFrom(ask, root, rep, root, [], 0, pages) ==
            if |all| < pages * rep then Outcome(all, None)
            else Outcome(all[..pages * rep], Some(Endless))
  {
    var all := Branch(objects, root);
    forall n: nat | Due(all, rep, n, pages)
      ensures GoesOn(ask, root, rep, all, n, pages)
    {
      NextPage(ask, objects, root, rep, n, pages);
    }
    WalkRun(ask, root, rep, all, 0, pages);
    HeldIsProduct(pages, rep);
  }

  lemma NextPosition(seen: seq<VarBind>, root: Name, p: nat, q: nat, k: nat)
    requires Sorted(seen) && Bounds(seen, root, p, q) && k <= q - p
    ensures Position(seen, NextOf(root, seen[p..q][..k]), p + k)
  {
    if k > 0 {
      PositionOf(seen, p + k - 1);
      assert seen[p..q][..k][k - 1] == seen[p + k - 1];
    }
  }

  lemma BranchSlice(seen: seq<VarBind>, root: Name, p: nat, q: nat)
    requires Sorted(seen) && Plain(seen) && Bounds(seen, root, p, q)
    ensures Sorted(seen[p..q])
    ensures forall vb | vb in seen[p..q] :: !vb.value.EndOfMib? && HasPrefix(vb.oid, root)
  {}

  /** The same from the objects of the branch. */
  lemma PageSplit(seen: seq<VarBind>, root: Name, rep: nat, next: Name, p: nat, q: nat, k: nat, all: seq<VarBind>)
    returns (good: seq<VarBind>, rest: seq<VarBind>)
    requires Plain(seen) && Bounds(seen, root, p, q) && rep >= 1
    requires all == seen[p..q] && k <= |all| && Position(seen, next, p + k)
    ensures good == all[k..Min(k + rep, |all|)]
    ensures Bulk(seen, rep, next) == good + rest
    ensures if k + rep <= |all| then rest == []
            else rest != [] && (rest[0].value.EndOfMib? || !HasPrefix(rest[0].oid, root))
  {
    good, rest := PageOfBranch(seen, root, rep, next, p, q, p + k);
    SubSlice(seen, p, q, k, Min(k + rep, |all|));
  }

  /** The page that follows k objects of the branch, and what scanning it gives. */
  lemma PageFacts(seen: seq<VarBind>, root: Name, rep: nat, p: nat, q: nat, k: nat, all: seq<VarBind>)
    returns (page: seq<VarBind>)
    requires Plain(seen) && Sorted(seen) && Bounds(seen, root, p, q) && rep >= 1
    requires all == seen[p..q] && k <= |all|
    ensures page == Bulk(seen, rep, NextOf(root, all[..k])) && page != []
    ensures Scan(page, root, all[..k]) == (if k + rep <= |all| then More(all[..k + rep]) else Stop(all, true))
    ensures k + rep <= |all| ==> page[|page| - 1] == all[k + rep - 1]
  {
    NextPosition(seen, root, p, q, k);
    BranchSlice(seen, root, p, q);
    var good, rest := PageSplit(seen, root, rep, NextOf(root, all[..k]), p, q, k, all);
    page := good + rest;
    ScanPage(all, root, rep, k, good, rest);
  }

  /** The same of the objects themselves. */
  lemma AgentPage(objects: seq<VarBind>, root: Name, rep: nat, k: nat, all: seq<VarBind>)
    returns (page: seq<VarBind>)
    requires Sorted(objects) && rep >= 1 && all == Branch(objects, root) && k <= |all|
    ensures page == Bulk(objects, rep, NextOf(root, all[..k])) && page != []
    ensures Scan(page, root, all[..k]) == (if k + rep <= |all| then More(all[..k + rep]) else Stop(all, true))
    ensures k + rep <= |all| ==> page[|page| - 1] == all[k + rep - 1]
  {
    var seen := AllAsRead(objects);
    var p, q := BranchIsRun(seen, root);
    BranchAsRead(objects, root);
    page := PageFacts(seen, root, rep, p, q, k, all);
    NextAsRead(objects, NextOf(root, all[..k]), rep);
  }

  /** Exchange n of the walk gives the agent's page. */
  predicate Gives<E(==)>(ask: Exchange<E>, objects: seq<VarBind>, root: Name, rep: nat, n: nat)
    requires Held(n, rep) <= |Branch(objects, root)|
  {
    var o := NextOf(root, Branch(objects, root)[..Held(n, rep)]);
    ask(n, o, rep) == Ok(Bulk(objects, rep, o))
  }

  /** With the agent's answer, the walk takes its next page of the branch. */
  lemma NextPage<E>(ask: Exchange<E>, objects: seq<VarBind>, root: Name, rep: nat, n: nat, pages: nat)
    requires Sorted(objects) && rep >= 1 && Due(Branch(objects, root), rep, n, pages)
    requires Gives(ask, objects, root, rep, n)
    ensures GoesOn(ask, root, rep, Branch(objects, root), n, pages)
  {
    var all := Branch(objects, root);
    var page := AgentPage(objects, root, rep, Held(n, rep), all);
    PageTaken(ask, root, rep, all, Held(n, rep), n, pages, page);
  }

  lemma {:induction false} PageStep<E>(ask: Exchange<E>, root: Name, rep: nat, all: seq<VarBind>, next: Name, k: nat, n: nat, left: nat, page: seq<VarBind>)
    requires left > 0 && rep >= 1 && page != [] && k <= |all|
    requires ask(n, next, rep) == Ok(page)
    requires Scan(page, root, all[..k]) == (if k + rep <= |all| then More(all[..k + rep]) else Stop(all, true))
    requires k + rep <= |all| ==> page[|page| - 1] == all[k + rep - 1]
    ensures WalkFrom(ask, root, rep, next, all[..k], n, left) ==
            if k + rep <= |all| then WalkFrom(ask, root, rep, all[k + rep - 1].oid, all[..k + rep], n + 1, left - 1)
            else Outcome(all, None)
  {}

  lemma LastTaken(root: Name, all: seq<VarBind>, k: nat)
    requires 0 < k <= |all|
    ensures NextOf(root, all[..k]) == all[k - 1].oid
  {}

  lemma {:induction false} PageTaken<E>(ask: Exchange<E>, root: Name, rep: nat, all: seq<VarBind>, k: nat, n: nat, pages: nat, page: seq<VarBind>)
    requires Due(all, rep, n, pages) && rep >= 1 && page != [] && k == Held(n, rep)
    requires ask(n, NextOf(root, all[..k]), rep) == Ok(page)
    requires Scan(page, root, all[..k]) == (if k + rep <= |all| then More(all[..k + rep]) else Stop(all, true))
    requires k + rep <= |all| ==> page[|page| - 1] == all[k + rep - 1]
    ensures GoesOn(ask, root, rep, all, n, pages)
  {
    PageStep(ask, root, rep, all, NextOf(root, all[..k]), k, n, pages - n, page);
    if k + rep <= |all| {
      LastTaken(root, all, k + rep);
    }
  }

  /**
   * Walking the agent returns exactly the objects strictly after root and
   * under it, in order, once each, if and only if they are fewer than 100000
   * full pages; otherwise the walk fails with those of the first 100000 pages.
   */
  lemma WalkOfAgent(objects: seq<VarBind>, root: Name, maxRepetitions: int)
    requires Sorted(objects)
    ensures var rep := if maxRepetitions <= 0 then 20 else maxRepetitions;
            var all := Branch(objects, root);
            WalkFrom(Asking(objects), root, Repetitions(maxRepetitions), root, [], 0, PAGES) ==
            if |all| < 100000 * rep then Outcome(all, None)
            else Outcome(all[..100000 * rep], Some(Endless))
  {
    WalkOfPages(Asking(objects), objects, root, Repetitions(maxRepetitions), PAGES);
  }

  /**
   * A page holds the rep objects that come next, in order, as the client reads
   * them; when there are fewer, all of them and the end of the tree, marked
   * under the identifier asked. Without a count, all of them and no mark.
   */
  lemma {:induction false} BulkIsSlice(objects: seq<VarBind>, rep: int, o: Name, k: nat)
    requires Position(objects, o, k)
    ensures var n, seen := |objects|, AllAsRead(objects);
            Bulk(objects, rep, o) ==
            if rep < 0 then seen[k..]
            else if k + rep <= n then seen[k..k + rep]
            else seen[k..] + [VarBind(o, EndOfMib)]
  {
    if rep < 0 {
      NoCount(objects, o, rep, |objects|);
      NextCounted(objects, o, |objects|, k);
    } else {
      NextCounted(objects, o, rep, k);
      Marked(NextObjects(objects, o, rep), AllAsRead(objects), k, rep);
    }
  }

  lemma {:induction false} Marked(found: seq<VarBind>, seen: seq<VarBind>, k: nat, rep: nat)
    requires k <= |seen| && found == if k + rep <= |seen| then seen[k..k + rep] else seen[k..]
    ensures rep > |found| <==> k + rep > |seen|
  {}

  lemma {:induction false} NextCounted(objects: seq<VarBind>, o: Oid, left: nat, k: nat)
    requires Position(objects, o, k)
    ensures var n, seen := |objects|, AllAsRead(objects);
            NextObjects(objects, o, left) == if k + left <= n then seen[k..k + left] else seen[k..]
  {
    NextAsRead(objects, o, left);
    NextIsSlice(AllAsRead(objects), o, left, k);
  }

  /** Without a count, or with one that is never reached. */
  lemma {:induction false} NoCount(objects: seq<VarBind>, o: Oid, negative: int, left: nat)
    requires negative < 0 && |objects| <= left
    ensures NextObjects(objects, o, negative) == NextObjects(objects, o, left)
  {
    if objects != [] {
      NoCount(objects[1..], o, negative, left);
      NoCount(objects[1..], o, negative - 1, left - 1);
    }
  }

  lemma {:induction false} BranchAsListed(objects: seq<VarBind>, root: Name)
    requires Sorted(objects)
    ensures Sorted(Branch(objects, root))
    ensures forall vb :: vb in Branch(objects, root) <==>
              exists x :: x in objects && InScope(x.oid, root) && vb == AsRead(x)
  {
    if objects != [] {
      var rest := Branch(objects[1..], root);
      BranchAsListed(objects[1..], root);
      assert objects == [objects[0]] + objects[1..];
      forall vb | vb in rest
        ensures Less(objects[0].oid, vb.oid)
      {
        var x :| x in objects[1..] && vb == AsRead(x);
      }
    }
  }

  /**
   * The branch is every object strictly after root and under it, in order: its
   * identifier and its value, the exception markers being read as null.
   */
  lemma BranchMembers(objects: seq<VarBind>, root: Name)
    requires Sorted(objects)
    ensures Sorted(Branch(objects, root))
    ensures forall o: Name, v: Value :: VarBind(o, v) in Branch(objects, root) <==>
              exists x :: x in objects && x.oid == o && Less(root, o) && HasPrefix(o, root)
                          && v == if x.value.NoSuch? || x.value.EndOfMib? then Null else x.value
  {
    BranchAsListed(objects, root);
  }
}
