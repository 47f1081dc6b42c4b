/** Text cut at a separator and put together again, as `str.split` and `str.join` do. */
module Text {

  /** One more character in front of a text already split. */
  function Push(separator: char, c: char, pieces: seq<string>): (r: seq<string>)
    requires |pieces| >= 1
    ensures |r| >= 1
  {
    if c == separator then [""] + pieces else [[c] + pieces[0]] + pieces[1..]
  }

  function SplitOn(s: string, separator: char): (pieces: seq<string>)
    ensures |pieces| >= 1
  {
    if s == "" then [""] else Push(separator, s[0], SplitOn(s[1..], separator))
  }

  function JoinWith(pieces: seq<string>, separator: char): string {
    if pieces == [] then ""
    else if |pieces| == 1 then pieces[0]
    else pieces[0] + [separator] + JoinWith(pieces[1..], separator)
  }

  lemma PushInFront(separator: char, c: char, head: seq<string>, tail: seq<string>)
    requires |head| >= 1
    ensures Push(separator, c, head + tail) == Push(separator, c, head) + tail
  {
    assert (head + tail)[1..] == head[1..] + tail;
  }

  /** Splitting is piecewise: at a separator the pieces of the two sides stand side by side. */
  lemma {:induction false} SplitAtSeparator(a: string, rest: string, separator: char)
    ensures SplitOn(a + [separator] + rest, separator) == SplitOn(a, separator) + SplitOn(rest, separator)
    decreases |a|
  {
    var s := a + [separator] + rest;
    if a == "" {
      assert s[0] == separator && s[1..] == rest;
    } else {
      SplitAtSeparator(a[1..], rest, separator);
      assert s[0] == a[0] && s[1..] == a[1..] + [separator] + rest;
      PushInFront(separator, a[0], SplitOn(a[1..], separator), SplitOn(rest, separator));
    }
  }

  lemma {:induction false} OnePiece(a: string, separator: char)
    requires separator !in a
    ensures SplitOn(a, separator) == [a]
    decreases |a|
  {
    if a != "" {
      OnePiece(a[1..], separator);
      assert [a[0]] + a[1..] == a;
    }
  }

  lemma {:induction false} PiecesHaveNoSeparator(s: string, separator: char)
    ensures forall p :: p in SplitOn(s, separator) ==> separator !in p
    decreases |s|
  {
    if s != "" {
      PiecesHaveNoSeparator(s[1..], separator);
      assert SplitOn(s[1..], separator)[0] in SplitOn(s[1..], separator);
    }
  }

  lemma {:induction false} SplitUndoesJoin(pieces: seq<string>, separator: char)
    requires pieces != [] && forall p :: p in pieces ==> separator !in p
    ensures SplitOn(JoinWith(pieces, separator), separator) == pieces
    decreases |pieces|
  {
    OnePiece(pieces[0], separator);
    if |pieces| > 1 {
      SplitUndoesJoin(pieces[1..], separator);
      SplitAtSeparator(pieces[0], JoinWith(pieces[1..], separator), separator);
      assert [pieces[0]] + pieces[1..] == pieces;
    }
  }

  lemma JoinPushed(separator: char, c: char, pieces: seq<string>)
    requires |pieces| >= 1
    ensures JoinWith(Push(separator, c, pieces), separator) == [c] + JoinWith(pieces, separator)
  {
    var pushed := Push(separator, c, pieces);
    if c == separator {
      assert pushed[1..] == pieces;
    } else {
      assert pushed[1..] == pieces[1..];
    }
  }

  /** No text is lost by splitting it. */
  lemma {:induction false} JoinUndoesSplit(s: string, separator: char)
    ensures JoinWith(SplitOn(s, separator), separator) == s
    decreases |s|
  {
    if s != "" {
      JoinUndoesSplit(s[1..], separator);
      JoinPushed(separator, s[0], SplitOn(s[1..], separator));
      assert [s[0]] + s[1..] == s;
    }
  }

  lemma {:induction false} JoinSplits(a: seq<string>, b: seq<string>, separator: char)
    requires a != [] && b != []
    ensures JoinWith(a + b, separator) == JoinWith(a, separator) + [separator] + JoinWith(b, separator)
    decreases |a|
  {
    assert (a + b)[0] == a[0] && (a + b)[1..] == a[1..] + b;
    if |a| > 1 {
      JoinSplits(a[1..], b, separator);
      var x, y, z := JoinWith(a[1..], separator), [separator], JoinWith(b, separator);
      assert a[0] + y + (x + y + z) == (a[0] + y + x) + y + z;
    } else {
      assert a[1..] + b == b;
    }
  }

  /** A text begins with another and a separator, or is it, exactly when its pieces begin with the other's. */
  lemma PrefixOfPieces(s: string, head: string, separator: char)
    ensures s == head || head + [separator] <= s <==> SplitOn(head, separator) <= SplitOn(s, separator)
  {
    var whole, first := SplitOn(s, separator), SplitOn(head, separator);
    if head + [separator] <= s {
      var rest := s[|head| + 1..];
      assert s == head + [separator] + rest;
      SplitAtSeparator(head, rest, separator);
    }
    if first <= whole {
      var tail := whole[|first|..];
      assert whole == first + tail;
      JoinUndoesSplit(s, separator);
      JoinUndoesSplit(head, separator);
      if tail == [] {
        assert whole == first;
      } else {
        JoinSplits(first, tail, separator);
      }
    }
  }
}
