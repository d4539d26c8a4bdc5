/** Splitting text at a separator, leftmost occurrence first and without overlap, and
    joining pieces with it: what comes back, and exactly when. */
module Strings {
  import opened Sequences

  predicate At(s: string, sep: string, i: int) {
    0 <= i && i + |sep| <= |s| && s[i..i + |sep|] == sep
  }

  predicate Free(s: string, sep: string) {
    forall i :: 0 <= i <= |s| ==> !At(s, sep, i)
  }

  /** The leftmost occurrence at or after `from`, or -1. */
  function Find(s: string, sep: string, from: nat): (i: int)
    requires from <= |s|
    ensures i >= 0 ==> At(s, sep, i) && from <= i && forall j :: from <= j < i ==> !At(s, sep, j)
    ensures i < 0 ==> i == -1 && forall j :: from <= j <= |s| ==> !At(s, sep, j)
    decreases |s| - from
  {
    if At(s, sep, from) then from
    else if from == |s| then -1
    else Find(s, sep, from + 1)
  }

  function Split(s: string, sep: string): (pieces: seq<string>)
    requires sep != ""
    ensures pieces != []
  {
    var i := Find(s, sep, 0);
    if i < 0 then [s] else [s[..i]] + Split(s[i + |sep|..], sep)
  }

  function Join(pieces: seq<string>, sep: string): string {
    if pieces == [] then ""
    else if |pieces| == 1 then pieces[0]
    else pieces[0] + sep + Join(pieces[1..], sep)
  }

  /** The same from the right end. */
  lemma {:induction false} JoinLast(pieces: seq<string>, sep: string)
    requires |pieces| > 1
    ensures Join(pieces, sep) == Join(Front(pieces), sep) + sep + Last(pieces)
  {
    if |pieces| > 2 {
      JoinLast(pieces[1..], sep);
      assert Front(pieces)[1..] == Front(pieces[1..]);
    }
  }

  predicate Border(sep: string, k: int) {
    0 < k < |sep| && sep[..k] == sep[|sep| - k..]
  }

  /** No proper prefix of the separator is also a suffix of it. */
  predicate Borderless(sep: string) {
    forall k :: 0 < k < |sep| ==> !Border(sep, k)
  }

  lemma WithinPiece(piece: string, rest: string, sep: string, j: nat)
    requires j + |sep| <= |piece|
    ensures At(piece + rest, sep, j) <==> At(piece, sep, j)
  {
    assert (piece + rest)[j..j + |sep|] == piece[j..j + |sep|];
  }

  /** No piece holds the separator. */
  lemma {:induction false} PiecesAreFree(s: string, sep: string, k: nat)
    requires sep != "" && k < |Split(s, sep)|
    ensures Free(Split(s, sep)[k], sep)
    decreases |s|
  {
    var i := Find(s, sep, 0);
    if i >= 0 {
      if k == 0 {
        forall j | 0 <= j <= i ensures !At(s[..i], sep, j) {
          if j + |sep| <= i {
            WithinPiece(s[..i], s[i..], sep, j);
            assert s[..i] + s[i..] == s;
          }
        }
      } else {
        PiecesAreFree(s[i + |sep|..], sep, k - 1);
      }
    }
  }

  /** An occurrence across the end of a piece makes the separator overlap itself. */
  lemma AcrossTheEnd(piece: string, sep: string, rest: string, j: nat)
    requires j < |piece| < j + |sep|
    ensures At(piece + (sep + rest), sep, j) ==> Border(sep, j + |sep| - |piece|)
  {
    var s, k := piece + (sep + rest), j + |sep| - |piece|;
    assert sep[..k] == s[|piece|..|piece| + k];
    assert s[|piece|..|piece| + k] == s[j..j + |sep|][|sep| - k..];
  }

  /** The first separator after a free piece is the one that was put there, unless the
      separator overlaps itself. */
  lemma FirstSeparator(piece: string, sep: string, rest: string)
    requires sep != "" && Free(piece, sep) && Borderless(sep)
    ensures Find(piece + sep + rest, sep, 0) == |piece|
  {
    var s := piece + (sep + rest);
    assert s == piece + sep + rest;
    assert s[|piece|..|piece| + |sep|] == sep;
    assert At(s, sep, |piece|);
    forall j | 0 <= j < |piece| ensures !At(s, sep, j) {
      if j + |sep| <= |piece| {
        WithinPiece(piece, sep + rest, sep, j);
      } else {
        AcrossTheEnd(piece, sep, rest, j);
      }
    }
  }

  /** Text without the separator is one piece, and only such text. */
  lemma FreeSplits(s: string, sep: string)
    requires sep != ""
    ensures Split(s, sep) == [s] <==> Free(s, sep)
  {
    if Free(s, sep) {
      assert !At(s, sep, Find(s, sep, 0));
    } else {
      var i := Find(s, sep, 0);
      assert |[s[..i]] + Split(s[i + |sep|..], sep)| > 1;
    }
  }

  lemma SplitOnce(piece: string, sep: string, rest: string)
    requires sep != "" && Find(piece + sep + rest, sep, 0) == |piece|
    ensures Split(piece + sep + rest, sep) == [piece] + Split(rest, sep)
  {
    var s := piece + sep + rest;
    assert s[..|piece|] == piece;
    assert s[|piece| + |sep|..] == rest;
  }

  /** Cut where the separator was put, the text ends with the rest exactly when that is free. */
  lemma LastPiece(piece: string, sep: string, rest: string)
    requires sep != "" && Find(piece + sep + rest, sep, 0) == |piece|
    ensures Split(piece + sep + rest, sep)[0] == piece
    ensures Last(Split(piece + sep + rest, sep)) == rest <==> Free(rest, sep)
  {
    var pieces := Split(rest, sep);
    SplitOnce(piece, sep, rest);
    assert Last([piece] + pieces) == Last(pieces);
    FreeSplits(rest, sep);
    PiecesAreFree(rest, sep, |pieces| - 1);
  }

  /** Splitting what was joined gives the pieces back, for a separator that does not
      overlap itself, exactly when no piece holds it. */
  lemma SplitJoin(pieces: seq<string>, sep: string)
    requires pieces != [] && sep != "" && Borderless(sep)
    ensures Split(Join(pieces, sep), sep) == pieces <==> forall k :: 0 <= k < |pieces| ==> Free(pieces[k], sep)
  {
    if forall k :: 0 <= k < |pieces| ==> Free(pieces[k], sep) {
      JoinedPiecesComeBack(pieces, sep);
    }
    if Split(Join(pieces, sep), sep) == pieces {
      forall k | 0 <= k < |pieces| ensures Free(pieces[k], sep) {
        PiecesAreFree(Join(pieces, sep), sep, k);
      }
    }
  }

  lemma {:induction false} JoinedPiecesComeBack(pieces: seq<string>, sep: string)
    requires pieces != [] && sep != "" && Borderless(sep)
    requires forall k :: 0 <= k < |pieces| ==> Free(pieces[k], sep)
    ensures Split(Join(pieces, sep), sep) == pieces
  {
    if |pieces| > 1 {
      var rest := Join(pieces[1..], sep);
      JoinedPiecesComeBack(pieces[1..], sep);
      FirstSeparator(pieces[0], sep, rest);
      SplitOnce(pieces[0], sep, rest);
      calc {
        Split(Join(pieces, sep), sep);
        Split(pieces[0] + sep + rest, sep);
        [pieces[0]] + Split(rest, sep);
        [pieces[0]] + pieces[1..];
        pieces;
      }
    } else {
      FreeSplits(pieces[0], sep);
    }
  }

  lemma SameFirst(a: string, sep: string, rest: string)
    requires sep != "" && Find(a, sep, 0) >= 0
    ensures Find(a + rest, sep, 0) == Find(a, sep, 0)
  {
    forall j | 0 <= j <= Find(a, sep, 0) ensures At(a + rest, sep, j) <==> At(a, sep, j) {
      WithinPiece(a, rest, sep, j);
    }
  }

  lemma SplitStep(a: string, sep: string, b: string, left: string, rest: string)
    requires sep != "" && a == left + sep + rest && Find(a, sep, 0) == |left|
    ensures Split(a, sep) == [left] + Split(rest, sep)
    ensures Split(a + sep + b, sep) == [left] + Split(rest + sep + b, sep)
  {
    SplitOnce(left, sep, rest);
    SameFirst(a, sep, sep + b);
    assert a + (sep + b) == a + sep + b == left + sep + (rest + sep + b);
    SplitOnce(left, sep, rest + sep + b);
  }

  /** Two texts joined by such a separator split as each does alone. */
  lemma {:induction false} SplitTwo(a: string, sep: string, b: string)
    requires sep != "" && Borderless(sep)
    ensures Split(a + sep + b, sep) == Split(a, sep) + Split(b, sep)
    decreases |a|
  {
    var i := Find(a, sep, 0);
    if i < 0 {
      FirstSeparator(a, sep, b);
      SplitOnce(a, sep, b);
    } else {
      var left, rest := a[..i], a[i + |sep|..];
      SplitTwo(rest, sep, b);
      SplitStep(a, sep, b, left, rest);
    }
  }

  lemma {:induction false} SplitMany(texts: seq<string>, sep: string, piece: string)
    requires texts != [] && sep != "" && Borderless(sep)
    ensures piece in Split(Join(texts, sep), sep) <==> exists t :: t in texts && piece in Split(t, sep)
  {
    if |texts| > 1 {
      SplitTwo(texts[0], sep, Join(texts[1..], sep));
      SplitMany(texts[1..], sep, piece);
      assert texts == [texts[0]] + texts[1..];
    }
  }

  /** Text with a character that is not of the separator has a piece that is not empty. */
  lemma {:induction false} SomePiece(s: string, sep: string, k: nat)
    requires sep != "" && k < |s| && s[k] !in sep
    ensures exists piece :: piece in Split(s, sep) && piece != ""
    decreases |s|
  {
    var i := Find(s, sep, 0);
    if i < 0 {
      assert s in Split(s, sep);
    } else if i > 0 {
      assert s[..i] in [s[..i]] + Split(s[i + |sep|..], sep);
    } else {
      assert s[0..|sep|] == sep;
      assert forall n :: 0 <= n < |sep| ==> s[n] == s[0..|sep|][n];
      SomePiece(s[|sep|..], sep, k - |sep|);
      var piece :| piece in Split(s[|sep|..], sep) && piece != "";
      assert piece in [s[..i]] + Split(s[|sep|..], sep);
    }
  }

  predicate EndsWith(s: string, suffix: string) {
    |suffix| <= |s| && s[|s| - |suffix|..] == suffix
  }

  /** A text ends with a mark and a word exactly when its part after the mark is the word,
      if neither holds the mark. */
  lemma LastField(name: string, mark: char, id: string, word: string)
    requires mark !in id && mark !in word
    ensures EndsWith(name + [mark] + id, [mark] + word) <==> id == word
  {
    var e, suffix := name + [mark] + id, [mark] + word;
    assert forall k :: 0 <= k < |id| ==> e[|name| + 1 + k] == id[k];
    assert forall k :: 0 <= k < |word| ==> suffix[1 + k] == word[k];
    if EndsWith(e, suffix) {
      // Were the lengths different, the mark of one would stand inside the other.
      var at, k := |e| - |suffix|, if |id| > |word| then 0 else |word| - |id|;
      assert e[at..][k] == suffix[k];
      assert e[at + k] == suffix[k];
      assert |id| == |word|;
      assert e[at..][1..] == id && suffix[1..] == word;
    }
    if id == word {
      assert e[|name|..] == suffix;
    }
  }
}
