/** Small datatypes and sequence facts shared by every module. */
module Basics {

  datatype Option<+T> = None | Some(value: T)

  datatype Result<+T, +E> = Ok(value: T) | Err(error: E)

  ghost predicate NoDuplicates<T>(s: seq<T>) {
    forall i, j :: 0 <= i < j < |s| ==> s[i] != s[j]
  }

  /** `x` added at the end unless it is already there: one round of the source's "if not in, append". */
  function AddNew<T(==)>(s: seq<T>, x: T): seq<T> {
    if x in s then s else s + [x]
  }

  function AddAllNew<T(==)>(s: seq<T>, xs: seq<T>): seq<T>
    decreases |xs|
  {
    if xs == [] then s else AddAllNew(AddNew(s, xs[0]), xs[1..])
  }

  /** Order-stable de-duplication: no repeats, nothing lost, nothing invented, the start kept. */
  lemma {:induction false} AddAllNewIsUnion<T>(s: seq<T>, xs: seq<T>)
    ensures s <= AddAllNew(s, xs)
    ensures forall x :: x in AddAllNew(s, xs) <==> x in s || x in xs
    ensures NoDuplicates(s) ==> NoDuplicates(AddAllNew(s, xs))
    decreases |xs|
  {
    if xs != [] {
      AddAllNewIsUnion(AddNew(s, xs[0]), xs[1..]);
    }
  }

  lemma {:induction false} AddAllNewStep<T>(s: seq<T>, xs: seq<T>, k: nat)
    requires k < |xs|
    ensures AddAllNew(s, xs[..k + 1]) == AddNew(AddAllNew(s, xs[..k]), xs[k])
    decreases k
  {
    if k > 0 {
      AddAllNewStep(AddNew(s, xs[0]), xs[1..], k - 1);
      assert xs[..k + 1][1..] == xs[1..][..k] && xs[..k][1..] == xs[1..][..k - 1];
    } else {
      assert xs[..1] == [xs[0]] && xs[..0] == [];
      assert [xs[0]][1..] == [];
    }
  }

  lemma AddAllNewLast<T>(s: seq<T>, xs: seq<T>, x: T)
    ensures AddAllNew(s, xs + [x]) == AddNew(AddAllNew(s, xs), x)
  {
    AddAllNewStep(s, xs + [x], |xs|);
    assert (xs + [x])[..|xs|] == xs && (xs + [x])[..|xs| + 1] == xs + [x];
  }

  lemma {:induction false} AddAllNewKnown<T>(s: seq<T>, xs: seq<T>)
    requires forall x :: x in xs ==> x in s
    ensures AddAllNew(s, xs) == s
    decreases |xs|
  {
    if xs != [] {
      AddAllNewKnown(s, xs[1..]);
    }
  }
}
