/**
 * LineSplitter.split: Java's `s.split("\\r?\\n|\\r")` with the default limit 0. The regex
 * is matched leftmost-first, so "\r\n" is one terminator; a lone '\n' or '\r' is another.
 * With limit 0 trailing empty strings are removed, and an input with no match at all comes
 * back as the single element `s` (so "" gives [""]).
 */
module LineSplitter {

  predicate IsTerminator(c: char) {
    c == '\n' || c == '\r'
  }

  predicate HasTerminator(s: string) {
    exists i :: 0 <= i < |s| && IsTerminator(s[i])
  }

  /** The strings between successive matches, trailing empty ones included. */
  function Pieces(s: string): (r: seq<string>)
    ensures |r| >= 1
    decreases |s|
  {
    if |s| == 0 then [""]
    else if s[0] == '\r' && |s| >= 2 && s[1] == '\n' then [""] + Pieces(s[2..])
    else if IsTerminator(s[0]) then [""] + Pieces(s[1..])
    else
      var rest := Pieces(s[1..]);
      [[s[0]] + rest[0]] + rest[1..]
  }

  /** Limit 0: drops the run of empty strings at the end, and only that. */
  function DropTrailingEmpty(ps: seq<string>): (r: seq<string>)
    ensures |r| <= |ps| && r == ps[..|r|]
    ensures forall j :: |r| <= j < |ps| ==> ps[j] == ""
    ensures r == [] || r[|r| - 1] != ""
    decreases |ps|
  {
    if ps != [] && ps[|ps| - 1] == "" then DropTrailingEmpty(ps[..|ps| - 1]) else ps
  }

  /** split(String s): the whole input when it has no terminator; otherwise a prefix of the
      pieces that does not end in "". */
  function Split(s: string): (r: seq<string>)
    ensures !HasTerminator(s) ==> r == [s]
    ensures HasTerminator(s) ==> r <= Pieces(s) && (r == [] || r[|r| - 1] != "")
  {
    if !HasTerminator(s) then [s] else DropTrailingEmpty(Pieces(s))
  }

  /** `String.join(sep, parts)`. */
  function Join(parts: seq<string>, sep: string): string {
    if |parts| == 0 then ""
    else if |parts| == 1 then parts[0]
    else parts[0] + sep + Join(parts[1..], sep)
  }

  /** The input with every terminator ("\r\n", "\n" or "\r") written as "\n". */
  function Canonical(s: string): string
    decreases |s|
  {
    if |s| == 0 then ""
    else if s[0] == '\r' && |s| >= 2 && s[1] == '\n' then "\n" + Canonical(s[2..])
    else if IsTerminator(s[0]) then "\n" + Canonical(s[1..])
    else [s[0]] + Canonical(s[1..])
  }

  // Properties.

  /** No piece contains a terminator. */
  lemma {:induction false} PiecesHaveNoTerminator(s: string)
    ensures forall p, j :: p in Pieces(s) && 0 <= j < |p| ==> !IsTerminator(p[j])
    decreases |s|
  {
    if |s| == 0 {
    } else if s[0] == '\r' && |s| >= 2 && s[1] == '\n' {
      PiecesHaveNoTerminator(s[2..]);
    } else if IsTerminator(s[0]) {
      PiecesHaveNoTerminator(s[1..]);
    } else {
      var rest := Pieces(s[1..]);
      PiecesHaveNoTerminator(s[1..]);
      assert rest[0] in rest;
      forall p | p in rest[1..] ensures p in rest { }
    }
  }

  /** No chunk returned by split contains '\n' or '\r'. */
  lemma SplitHasNoTerminator(s: string)
    ensures forall p, j :: p in Split(s) && 0 <= j < |p| ==> !IsTerminator(p[j])
  {
    if HasTerminator(s) {
      PiecesHaveNoTerminator(s);
      var ps := Pieces(s);
      var r := DropTrailingEmpty(ps);
      forall p | p in r ensures p in ps {
        var k :| 0 <= k < |r| && r[k] == p;
        assert ps[k] == p;
      }
    } else {
      forall p, j | p in Split(s) && 0 <= j < |p| ensures !IsTerminator(p[j]) {
        assert p == s;
      }
    }
  }

  /** Joining the pieces with "\n" gives the input with every terminator written as "\n". */
  lemma {:induction false} JoinPieces(s: string)
    ensures Join(Pieces(s), "\n") == Canonical(s)
    decreases |s|
  {
    if |s| == 0 {
    } else if s[0] == '\r' && |s| >= 2 && s[1] == '\n' {
      JoinPieces(s[2..]);
      assert ([""] + Pieces(s[2..]))[1..] == Pieces(s[2..]);
    } else if IsTerminator(s[0]) {
      JoinPieces(s[1..]);
      assert ([""] + Pieces(s[1..]))[1..] == Pieces(s[1..]);
    } else {
      var rest := Pieces(s[1..]);
      JoinPieces(s[1..]);
      var ps := [[s[0]] + rest[0]] + rest[1..];
      if |rest| > 1 {
        assert ps[1..] == rest[1..];
        assert Join(rest, "\n") == rest[0] + "\n" + Join(rest[1..], "\n");
      }
    }
  }

  /** A terminator of any form splits exactly as "\n" does. */
  lemma {:induction false} PiecesCanonical(s: string)
    ensures Pieces(Canonical(s)) == Pieces(s)
    decreases |s|
  {
    if |s| == 0 {
    } else if s[0] == '\r' && |s| >= 2 && s[1] == '\n' {
      PiecesCanonical(s[2..]);
      assert ("\n" + Canonical(s[2..]))[1..] == Canonical(s[2..]);
    } else if IsTerminator(s[0]) {
      PiecesCanonical(s[1..]);
      assert ("\n" + Canonical(s[1..]))[1..] == Canonical(s[1..]);
    } else {
      PiecesCanonical(s[1..]);
      assert ([s[0]] + Canonical(s[1..]))[1..] == Canonical(s[1..]);
    }
  }

  lemma HasTerminatorAppend(a: string, b: string)
    ensures HasTerminator(a + b) <==> HasTerminator(a) || HasTerminator(b)
  {
    if HasTerminator(a + b) {
      var i :| 0 <= i < |a + b| && IsTerminator((a + b)[i]);
      if i >= |a| {
        assert IsTerminator(b[i - |a|]);
      }
    }
    if HasTerminator(a) {
      var i :| 0 <= i < |a| && IsTerminator(a[i]);
      assert IsTerminator((a + b)[i]);
    }
    if HasTerminator(b) {
      var i :| 0 <= i < |b| && IsTerminator(b[i]);
      assert IsTerminator((a + b)[|a| + i]);
    }
  }

  lemma {:induction false} CanonicalTerminators(s: string)
    ensures HasTerminator(Canonical(s)) <==> HasTerminator(s)
    ensures forall j :: 0 <= j < |Canonical(s)| ==> Canonical(s)[j] != '\r'
    decreases |s|
  {
    if |s| > 0 {
      var k := if s[0] == '\r' && |s| >= 2 && s[1] == '\n' then 2 else 1;
      var head := if IsTerminator(s[0]) then "\n" else [s[0]];
      CanonicalTerminators(s[k..]);
      assert Canonical(s) == head + Canonical(s[k..]);
      assert s == s[..k] + s[k..];
      HasTerminatorAppend(head, Canonical(s[k..]));
      HasTerminatorAppend(s[..k], s[k..]);
      assert HasTerminator(head) <==> HasTerminator(s[..k]) by {
        if IsTerminator(s[0]) {
          assert IsTerminator(head[0]) && IsTerminator(s[..k][0]);
        }
      }
    }
  }

  /** "\r\n", "\r" and "\n" are interchangeable terminators for split. */
  lemma SplitCanonical(s: string)
    ensures Split(Canonical(s)) == Split(s)
  {
    CanonicalTerminators(s);
    PiecesCanonical(s);
    if !HasTerminator(s) {
      CanonicalWithoutCarriageReturn(s);
    }
  }

  lemma {:induction false} CanonicalWithoutCarriageReturn(s: string)
    requires forall j :: 0 <= j < |s| ==> s[j] != '\r'
    ensures Canonical(s) == s
    decreases |s|
  {
    if |s| > 0 {
      CanonicalWithoutCarriageReturn(s[1..]);
      if s[0] == '\n' {
        assert s == "\n" + s[1..];
      } else {
        assert s == [s[0]] + s[1..];
      }
    }
  }

  /** The last piece ends with the input's last character when that is not a terminator. */
  lemma {:induction false} LastPieceNonEmpty(s: string)
    requires |s| > 0 && !IsTerminator(s[|s| - 1])
    ensures Pieces(s)[|Pieces(s)| - 1] != ""
    decreases |s|
  {
    var k := if s[0] == '\r' && |s| >= 2 && s[1] == '\n' then 2 else 1;
    if |s| > k {
      LastPieceNonEmpty(s[k..]);
    }
  }

  /** For input that does not end in a terminator, joining the chunks with "\n" gives back
      the input with its terminators written as "\n"; for input whose only terminator is
      '\n' that is the input itself. */
  lemma SplitJoin(s: string)
    requires s == [] || !IsTerminator(s[|s| - 1])
    ensures Join(Split(s), "\n") == Canonical(s)
    ensures (forall j :: 0 <= j < |s| ==> s[j] != '\r') ==> Join(Split(s), "\n") == s
  {
    if !HasTerminator(s) {
      CanonicalWithoutCarriageReturn(s);
    } else {
      var ps := Pieces(s);
      LastPieceNonEmpty(s);
      assert DropTrailingEmpty(ps) == ps;
      JoinPieces(s);
    }
    if forall j :: 0 <= j < |s| ==> s[j] != '\r' {
      CanonicalWithoutCarriageReturn(s);
    }
  }

  /** Input made only of terminators splits into no chunk at all. */
  lemma {:induction false} OnlyTerminators(s: string)
    requires |s| > 0 && forall j :: 0 <= j < |s| ==> IsTerminator(s[j])
    ensures Split(s) == []
  {
    assert IsTerminator(s[0]);
    PiecesAllEmpty(s);
  }

  lemma {:induction false} PiecesAllEmpty(s: string)
    requires forall j :: 0 <= j < |s| ==> IsTerminator(s[j])
    ensures forall j :: 0 <= j < |Pieces(s)| ==> Pieces(s)[j] == ""
    decreases |s|
  {
    if |s| > 0 {
      var k := if s[0] == '\r' && |s| >= 2 && s[1] == '\n' then 2 else 1;
      PiecesAllEmpty(s[k..]);
    }
  }

  /** Without any terminator the result is the input itself, also for "". */
  lemma NoTerminator(s: string)
    requires forall j :: 0 <= j < |s| ==> !IsTerminator(s[j])
    ensures Split(s) == [s]
  {
  }

  /** Trailing empty chunks are removed; leading and interior ones are kept: the result is the
      list of pieces with its run of trailing empty strings cut off. */
  lemma SplitKeepsAllButTrailingEmpty(s: string)
    requires HasTerminator(s)
    ensures |Split(s)| <= |Pieces(s)| && Split(s) == Pieces(s)[..|Split(s)|]
    ensures forall j :: |Split(s)| <= j < |Pieces(s)| ==> Pieces(s)[j] == ""
    ensures Split(s) == [] || Split(s)[|Split(s)| - 1] != ""
  {
  }

  lemma SingleCharPieces(c: char)
    requires !IsTerminator(c)
    ensures Pieces([c]) == [[c]]
  {
    var rest := Pieces([c][1..]);
    assert [c][1..] == "";
    assert rest == [""];
    assert rest[1..] == [] && [c] + rest[0] == [c];
  }

  /** "\r\n" is one terminator, not two. */
  lemma CarriageReturnLineFeedExample()
    ensures Split("a\r\nb") == ["a", "b"]
  {
    assert IsTerminator("a\r\nb"[1]);
    assert "a\r\nb"[1..] == "\r\nb" && "\r\nb"[2..] == "b" && "b"[1..] == "";
    SingleCharPieces('b');
    assert Pieces("\r\nb") == ["", "b"];
    var rest := Pieces("a\r\nb"[1..]);
    assert ["a"[0]] + rest[0] == "a" && rest[1..] == ["b"];
  }

  /** Trailing empty chunks are dropped. */
  lemma TrailingEmptyExample()
    ensures Split("a\n\n") == ["a"]
  {
    assert IsTerminator("a\n\n"[1]);
    assert "a\n\n"[1..] == "\n\n" && "\n\n"[1..] == "\n" && "\n"[1..] == "";
    assert Pieces("") == [""];
    assert Pieces("\n") == ["", ""];
    assert Pieces("\n\n") == ["", "", ""];
    var rest := Pieces("a\n\n"[1..]);
    assert rest == ["", "", ""];
    assert ["a"[0]] + rest[0] == "a" && rest[1..] == ["", ""];
    assert Pieces("a\n\n") == ["a", "", ""];
    var r := DropTrailingEmpty(["a", "", ""]);
    assert ["a", "", ""][0] != "";
    assert |r| == 1;
  }

  /** A leading empty chunk is kept. */
  lemma LeadingEmptyExample()
    ensures Split("\na") == ["", "a"]
  {
    assert IsTerminator("\na"[0]);
    assert "\na"[1..] == "a";
    SingleCharPieces('a');
  }

}
