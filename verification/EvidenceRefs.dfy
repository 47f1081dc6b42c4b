/**
  The comma-separated evidence handles of an incident row and their bounded merge
  (`_merge_refs`, app/domain/incidents.py).
*/
module EvidenceRefs {
  import opened Basics
  import opened Text

  const LIMIT := 50

  /** `s.split(",")` */
  function Split(s: string): seq<string> {
    SplitOn(s, ',')
  }

  /** `",".join(refs)` */
  function Join(refs: seq<string>): string {
    JoinWith(refs, ',')
  }

  lemma ColumnHasCommas(a: string, b: string)
    ensures Join([a, b]) == a + "," + b && Join([a]) == a && Join([]) == ""
  {
    assert [a, b][1..] == [b] && JoinWith([b], ',') == b;
  }

  function NonEmpty(refs: seq<string>): seq<string> {
    if refs == [] then []
    else (if refs[0] == "" then [] else [refs[0]]) + NonEmpty(refs[1..])
  }

  /** The handles a stored column denotes. */
  function Refs(column: string): seq<string> {
    NonEmpty(Split(column))
  }

  /** A handle that survives being written into a column. */
  predicate Clean(ref: string) {
    ref != "" && ',' !in ref
  }

  lemma {:induction false} NonEmptyMembers(refs: seq<string>)
    ensures forall r :: r in NonEmpty(refs) <==> r in refs && r != ""
    ensures (forall r :: r in refs ==> r != "") ==> NonEmpty(refs) == refs
    decreases |refs|
  {
    if refs != [] {
      var rest := refs[1..];
      NonEmptyMembers(rest);
      assert refs == [refs[0]] + rest;
      if forall r :: r in refs ==> r != "" {
        assert refs[0] in refs && forall r :: r in rest ==> r in refs;
      }
    }
  }

  /** Writing handles and reading them back is lossless exactly when none is empty or contains a comma. */
  lemma RoundTripIffClean(refs: seq<string>)
    ensures Refs(Join(refs)) == refs <==> forall r :: r in refs ==> Clean(r)
  {
    PiecesHaveNoSeparator(Join(refs), ',');
    NonEmptyMembers(Split(Join(refs)));
    if (forall r :: r in refs ==> Clean(r)) && refs != [] {
      SplitUndoesJoin(refs, ',');
    }
  }

  /** What a list of handles denotes once written: each one's own pieces, in order. */
  function Pieces(refs: seq<string>): seq<string> {
    if refs == [] then [] else Refs(refs[0]) + Pieces(refs[1..])
  }

  lemma {:induction false} NonEmptySplits(xs: seq<string>, ys: seq<string>)
    ensures NonEmpty(xs + ys) == NonEmpty(xs) + NonEmpty(ys)
    decreases |xs|
  {
    if xs == [] {
      assert xs + ys == ys;
    } else {
      NonEmptySplits(xs[1..], ys);
      assert (xs + ys)[0] == xs[0] && (xs + ys)[1..] == xs[1..] + ys;
      var head, a, b := if xs[0] == "" then [] else [xs[0]], NonEmpty(xs[1..]), NonEmpty(ys);
      assert head + (a + b) == (head + a) + b;
    }
  }

  /** Writing any handles and reading the column back gives their pieces, commas or not. */
  lemma {:induction false} ColumnReadsAsPieces(refs: seq<string>)
    ensures Refs(Join(refs)) == Pieces(refs)
    decreases |refs|
  {
    if refs == [] {
      assert NonEmpty([""]) == [];
    } else if |refs| == 1 {
      assert Pieces(refs[1..]) == [];
    } else {
      ColumnReadsAsPieces(refs[1..]);
      SplitAtSeparator(refs[0], Join(refs[1..]), ',');
      NonEmptySplits(Split(refs[0]), Split(Join(refs[1..])));
    }
  }

  function Cut(refs: seq<string>): seq<string> {
    if |refs| <= LIMIT then refs else refs[..LIMIT]
  }

  /** The list a merge stands for: what was there, then what is new, cut at the limit. */
  function Merged(existing: seq<string>, incoming: seq<string>): seq<string> {
    Cut(AddAllNew(existing, NonEmpty(incoming)))
  }

  /** What a merge is: the first fifty of the old handles in their order and then the new ones, none twice. */
  lemma MergedIsFirstFifty(existing: seq<string>, incoming: seq<string>)
    ensures
      var union, merged := AddAllNew(existing, NonEmpty(incoming)), Merged(existing, incoming);
      && existing <= union && (forall r :: r in union <==> r in existing || (r in incoming && r != ""))
      && (NoDuplicates(existing) ==> NoDuplicates(union))
      && merged <= union && |merged| == (if |union| < 50 then |union| else 50)
  {
    NonEmptyMembers(incoming);
    AddAllNewIsUnion(existing, NonEmpty(incoming));
  }

  /** `_merge_refs` as a function on columns. */
  function MergedColumn(existing: string, incoming: seq<string>): string {
    Join(Merged(Refs(existing), incoming))
  }

  method MergeRefs(existing: string, incoming: seq<string>) returns (column: string)
    ensures column == MergedColumn(existing, incoming)
    ensures Refs(column) == Pieces(Merged(Refs(existing), incoming))
    ensures (forall r :: r in incoming ==> r == "" || Clean(r)) ==> Refs(column) == Merged(Refs(existing), incoming)
  {
    var seen := Refs(existing);
    for i := 0 to |incoming|
      invariant seen == AddAllNew(Refs(existing), NonEmpty(incoming[..i]))
    {
      NonEmptyOneMore(incoming, i);
      var ref := incoming[i];
      AddAllNewLast(Refs(existing), NonEmpty(incoming[..i]), ref);
      if ref != "" && ref !in seen {
        seen := seen + [ref];
      }
    }
    assert incoming[..|incoming|] == incoming;
    column := Join(Cut(seen));
    ColumnReadsAsPieces(Cut(seen));
    if forall r :: r in incoming ==> r == "" || Clean(r) {
      MergedReadsBack(existing, incoming);
    }
  }

  lemma MergedReadsBack(existing: string, incoming: seq<string>)
    requires forall r :: r in incoming ==> r == "" || Clean(r)
    ensures Refs(Join(Merged(Refs(existing), incoming))) == Merged(Refs(existing), incoming)
  {
    PiecesHaveNoSeparator(existing, ',');
    NonEmptyMembers(Split(existing));
    NonEmptyMembers(incoming);
    AddAllNewIsUnion(Refs(existing), NonEmpty(incoming));
    var all := AddAllNew(Refs(existing), NonEmpty(incoming));
    forall r | r in Cut(all)
      ensures Clean(r)
    {
      assert r in all;
    }
    RoundTripIffClean(Cut(all));
  }

  lemma {:induction false} NonEmptyOneMore(refs: seq<string>, i: nat)
    requires i < |refs|
    ensures NonEmpty(refs[..i + 1])
         == if refs[i] == "" then NonEmpty(refs[..i]) else NonEmpty(refs[..i]) + [refs[i]]
    decreases i
  {
    if i > 0 {
      NonEmptyOneMore(refs[1..], i - 1);
      assert refs[..i + 1][1..] == refs[1..][..i] && refs[..i][1..] == refs[1..][..i - 1];
    } else {
      assert refs[..1] == [refs[0]] && [refs[0]][1..] == [];
    }
  }

  /** Re-merging the same handles changes nothing, even past the limit; what was there stays first. */
  lemma MergeIsIdempotent(existing: seq<string>, incoming: seq<string>)
    ensures Merged(Merged(existing, incoming), incoming) == Merged(existing, incoming)
    ensures Cut(existing) <= Merged(existing, incoming)
  {
    var xs := NonEmpty(incoming);
    AddAllNewIsUnion(existing, xs);
    var all := AddAllNew(existing, xs);
    AddAllNewIsUnion(Cut(all), xs);
    if |all| <= LIMIT {
      AddAllNewKnown(all, xs);
    }
  }
}
