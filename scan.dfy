/** How Python's `re.findall` walks a string: the engine tries a match at
    every start position from left to right; after a match it resumes where
    the match ended. A matcher is a total function from a start position to
    the match found there, if any. */
module Scan {
  import opened Base

  /** A match: its captured groups and the position just after it. */
  datatype Found<M> = Found(groups: M, end: nat)

  /** A matcher never returns an empty match. */
  ghost predicate Advances<M>(at: nat -> Option<Found<M>>)
  {
    forall q: nat {:trigger at(q)} :: at(q).Some? ==> at(q).value.end > q
  }

  /** The leftmost start position in `from..last` where `at` matches: the
      match `findall(...)[0]` reports. */
  function Leftmost<M>(at: nat -> Option<Found<M>>, from: nat, last: nat): (r: Option<(nat, Found<M>)>)
    ensures r.Some? ==> from <= r.value.0 <= last && at(r.value.0) == Some(r.value.1)
    ensures r.Some? ==> forall q :: from <= q < r.value.0 ==> at(q).None?
    ensures r.None? ==> forall q :: from <= q <= last ==> at(q).None?
    decreases if from <= last then last - from + 1 else 0
  {
    if from > last then None
    else match at(from)
      case Some(m) => Some((from, m))
      case None => Leftmost(at, from + 1, last)
  }

  /** The groups of every match `findall` reports, scanning `from..last`. */
  function FindAll<M>(at: nat -> Option<Found<M>>, from: nat, last: nat): (r: seq<M>)
    requires Advances(at)
    decreases if from <= last then last - from + 1 else 0
  {
    if from > last then []
    else match at(from)
      case Some(m) => [m.groups] + FindAll(at, m.end, last)
      case None => FindAll(at, from + 1, last)
  }

  /** `findall` is empty exactly when no start position matches, and its
      first element is the leftmost match. */
  lemma {:induction false} FindAllHead<M>(at: nat -> Option<Found<M>>, from: nat, last: nat)
    requires Advances(at)
    ensures |FindAll(at, from, last)| == 0 <==> Leftmost(at, from, last).None?
    ensures |FindAll(at, from, last)| > 0 ==>
              FindAll(at, from, last)[0] == Leftmost(at, from, last).value.1.groups
    decreases if from <= last then last - from + 1 else 0
  {
    if from <= last && at(from).None? {
      FindAllHead(at, from + 1, last);
    }
  }

  /** A match at `from` is reported first, and the scan resumes at its end. */
  lemma FindAllAt<M>(at: nat -> Option<Found<M>>, from: nat, last: nat, m: Found<M>)
    requires Advances(at) && from <= last && at(from) == Some(m)
    ensures FindAll(at, from, last) == [m.groups] + FindAll(at, m.end, last)
  {
  }

  /** Start positions where nothing matches are skipped: `findall` from
      `from` reports what it reports from `to`. */
  lemma {:induction false} FindAllSkips<M>(at: nat -> Option<Found<M>>, from: nat, to: nat, last: nat)
    requires Advances(at) && from <= to <= last + 1
    requires forall q: nat :: from <= q < to ==> at(q).None?
    ensures FindAll(at, from, last) == FindAll(at, to, last)
    decreases (to as int) - (from as int)
  {
    if from < to {
      assert at(from).None?;
      FindAllSkips(at, from + 1, to, last);
    }
  }

  /** A match at `from`, no match from its end up to `mid`, and a match at
      `mid`: those are the first two elements `findall` reports. */
  lemma FindAllFirstTwo<M>(at: nat -> Option<Found<M>>, from: nat, last: nat,
                           first: Found<M>, mid: nat, second: Found<M>)
    requires Advances(at) && from <= last && at(from) == Some(first)
    requires first.end <= mid <= last && at(mid) == Some(second)
    requires forall q: nat :: first.end <= q < mid ==> at(q).None?
    ensures |FindAll(at, from, last)| >= 2
    ensures FindAll(at, from, last)[0] == first.groups && FindAll(at, from, last)[1] == second.groups
  {
    FindAllAt(at, from, last, first);
    FindAllSkips(at, first.end, mid, last);
    FindAllAt(at, mid, last, second);
  }

  /** `findall` reports nothing exactly when no start position matches. */
  lemma FindAllNone<M>(at: nat -> Option<Found<M>>, from: nat, last: nat)
    requires Advances(at)
    ensures FindAll(at, from, last) == [] <==> forall q: nat :: from <= q <= last ==> at(q).None?
  {
    FindAllHead(at, from, last);
    if FindAll(at, from, last) != [] {
      assert at(Leftmost(at, from, last).value.0).Some?;
    }
  }

  /** A property every match's groups have holds of every element `findall` reports. */
  lemma {:induction false} FindAllKeeps<M>(at: nat -> Option<Found<M>>, P: M -> bool, from: nat, last: nat)
    requires Advances(at)
    requires forall q: nat {:trigger at(q)} :: at(q).Some? ==> P(at(q).value.groups)
    ensures forall k :: 0 <= k < |FindAll(at, from, last)| ==> P(FindAll(at, from, last)[k])
    decreases if from <= last then last - from + 1 else 0
  {
    if from <= last {
      match at(from)
      case Some(m) => FindAllKeeps(at, P, m.end, last);
      case None => FindAllKeeps(at, P, from + 1, last);
    }
  }
}
