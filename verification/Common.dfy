/** Option and Result, and the few facts about counting, about picking elements and about
    runs that several models below share. */
module Common {

  datatype Option<+T> = None | Some(value: T)

  datatype Result<+T, +E> = Ok(value: T) | Err(error: E)

  function Max(a: int, b: int): int {
    if a >= b then a else b
  }

  function Min(a: int, b: int): int {
    if a <= b then a else b
  }

  /** How many elements of `s` satisfy `p`. */
  function Count<T>(s: seq<T>, p: T -> bool): nat {
    if s == [] then 0 else Count(s[..|s| - 1], p) + (if p(s[|s| - 1]) then 1 else 0)
  }

  lemma CountAppend<T>(s: seq<T>, x: T, p: T -> bool)
    ensures Count(s + [x], p) == Count(s, p) + (if p(x) then 1 else 0)
  {
    assert (s + [x])[..|s|] == s;
  }

  /** Replacing one element moves the count by exactly that element's difference. */
  lemma {:induction false} CountUpdate<T>(s: seq<T>, i: nat, x: T, p: T -> bool)
    requires i < |s|
    ensures Count(s[i := x], p) == Count(s, p) - (if p(s[i]) then 1 else 0) + (if p(x) then 1 else 0)
  {
    var last := |s| - 1;
    if i == last {
      assert s[i := x][..last] == s[..last];
    } else {
      assert s[i := x][..last] == s[..last][i := x];
      CountUpdate(s[..last], i, x, p);
    }
  }

  lemma {:induction false} CountZero<T>(s: seq<T>, p: T -> bool)
    requires forall x :: x in s ==> !p(x)
    ensures Count(s, p) == 0
  {
    if s != [] {
      assert s[|s| - 1] in s;
      CountZero(s[..|s| - 1], p);
    }
  }

  /** A subset is no larger, and one of the same size is the whole set. */
  lemma SubsetSize<T>(a: set<T>, b: set<T>)
    requires a <= b
    ensures |a| <= |b|
    ensures |a| == |b| ==> a == b
  {
    assert b == a + (b - a);
    if |a| == |b| {
      assert |b - a| == 0;
    }
  }

  // ---- runs, step by step ----

  /** The steps lead from one world to the other. */
  ghost predicate Leads<W(!new), S>(next: (W, S, W) -> bool, w: W, steps: seq<S>, last: W)
    decreases |steps|
  {
    if steps == [] then w == last
    else exists middle: W :: next(w, steps[0], middle) && Leads(next, middle, steps[1..], last)
  }

  lemma LeadsOne<W(!new), S>(next: (W, S, W) -> bool, w: W, step: S, last: W)
    requires next(w, step, last)
    ensures Leads(next, w, [step], last)
  {
    assert [step][1..] == [] && Leads(next, last, [], last);
  }

  lemma {:induction false} LeadsThen<W(!new), S>(next: (W, S, W) -> bool, w: W, first: seq<S>, middle: W, second: seq<S>, last: W)
    requires Leads(next, w, first, middle) && Leads(next, middle, second, last)
    ensures Leads(next, w, first + second, last)
    decreases |first|
  {
    if first == [] {
      assert first + second == second;
    } else {
      var v: W :| next(w, first[0], v) && Leads(next, v, first[1..], middle);
      LeadsThen(next, v, first[1..], middle, second, last);
      assert (first + second)[1..] == first[1..] + second;
    }
  }

  /** Steps taken one after the other. */
  lemma {:induction false} LeadsAlong<W(!new), S>(next: (W, S, W) -> bool, worlds: seq<W>, steps: seq<S>)
    requires |worlds| == |steps| + 1
    requires forall k :: 0 <= k < |steps| ==> next(worlds[k], steps[k], worlds[k + 1])
    ensures Leads(next, worlds[0], steps, worlds[|steps|])
    decreases |steps|
  {
    if steps != [] {
      forall k | 0 <= k < |steps[1..]| ensures next(worlds[1..][k], steps[1..][k], worlds[1..][k + 1]) {
        assert next(worlds[k + 1], steps[k + 1], worlds[k + 2]);
      }
      LeadsAlong(next, worlds[1..], steps[1..]);
      assert next(worlds[0], steps[0], worlds[1]);
    }
  }
}
