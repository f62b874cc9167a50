/**
 String operations the retrieval code relies on: lower-casing, Python's
 `str.split(sep)` with an explicit separator, and `sep.join(pieces)`.
 Strings are sequences of characters; lower-casing covers ASCII letters only.
 */
module Text {

  /** Lower-casing of one character: ASCII upper-case letters move to lower case. */
  function LowerChar(c: char): (r: char)
    ensures 'A' <= c <= 'Z' ==> 'a' <= r <= 'z'
    ensures !('A' <= c <= 'Z') ==> r == c
    ensures !('A' <= r <= 'Z')
  {
    if 'A' <= c <= 'Z' then (c as int + ('a' as int - 'A' as int)) as char else c
  }

  /** `s.lower()`, character by character. */
  function Lower(s: string): (r: string)
    ensures |r| == |s|
    ensures forall i :: 0 <= i < |s| ==> r[i] == LowerChar(s[i])
  {
    seq(|s|, i requires 0 <= i < |s| => LowerChar(s[i]))
  }

  /** Lower-casing twice is lower-casing once. */
  lemma LowerIdempotent(s: string)
    ensures Lower(Lower(s)) == Lower(s)
  {
  }

  /**
   `s.split(sep)`: the pieces between consecutive occurrences of `sep`, empty
   pieces included; always at least one piece (`"".split(" ") == [""]`).
   */
  function Split(s: string, sep: char): (r: seq<string>)
    ensures |r| >= 1
    ensures forall k :: 0 <= k < |r| ==> sep !in r[k]
  {
    if s == [] then [""]
    else
      var rest := Split(s[1..], sep);
      if s[0] == sep then [""] + rest
      else [[s[0]] + rest[0]] + rest[1..]
  }

  /** `sep.join(pieces)`: the pieces with exactly one `sep` between neighbours. */
  function Join(pieces: seq<string>, sep: char): (r: string)
    ensures |pieces| == 0 ==> r == ""
    ensures |pieces| == 1 ==> r == pieces[0]
  {
    if |pieces| == 0 then ""
    else if |pieces| == 1 then pieces[0]
    else pieces[0] + [sep] + Join(pieces[1..], sep)
  }

  /** Splitting and re-joining with the same separator gives back the string. */
  lemma {:induction false} JoinSplit(s: string, sep: char)
    ensures Join(Split(s, sep), sep) == s
  {
    if s != [] {
      var rest := Split(s[1..], sep);
      JoinSplit(s[1..], sep);
      if s[0] == sep {
        assert Split(s, sep) == [""] + rest;
        assert Join([""] + rest, sep) == "" + [sep] + Join(rest, sep) by {
          assert ([""] + rest)[1..] == rest;
        }
      } else {
        var head := [s[0]] + rest[0];
        assert Split(s, sep) == [head] + rest[1..];
        if |rest| == 1 {
          assert Join([head], sep) == head;
        } else {
          assert ([head] + rest[1..])[1..] == rest[1..];
          assert Join(rest, sep) == rest[0] + [sep] + Join(rest[1..], sep);
        }
      }
    }
  }

  /** Splitting one piece that holds no separator, followed by a separator and more text. */
  lemma {:induction false} SplitCons(a: string, sep: char, b: string)
    requires sep !in a
    ensures Split(a + [sep] + b, sep) == [a] + Split(b, sep)
  {
    if a == [] {
      assert a + [sep] + b == [sep] + b;
      assert ([sep] + b)[1..] == b;
    } else {
      SplitCons(a[1..], sep, b);
      assert (a + [sep] + b)[1..] == a[1..] + [sep] + b;
      assert [a[0]] + a[1..] == a;
    }
  }

  /** A string without the separator splits into itself alone. */
  lemma {:induction false} SplitNoSeparator(a: string, sep: char)
    requires sep !in a
    ensures Split(a, sep) == [a]
  {
    if a != [] {
      SplitNoSeparator(a[1..], sep);
      assert [a[0]] + a[1..] == a;
    }
  }

  /** Joining pieces that hold no separator and splitting again gives back the pieces. */
  lemma {:induction false} SplitJoin(pieces: seq<string>, sep: char)
    requires |pieces| >= 1
    requires forall k :: 0 <= k < |pieces| ==> sep !in pieces[k]
    ensures Split(Join(pieces, sep), sep) == pieces
  {
    if |pieces| == 1 {
      SplitNoSeparator(pieces[0], sep);
    } else {
      SplitJoin(pieces[1..], sep);
      SplitCons(pieces[0], sep, Join(pieces[1..], sep));
      assert [pieces[0]] + pieces[1..] == pieces;
    }
  }

  /** Appending a last piece adds one separator and the piece. */
  lemma {:induction false} JoinSnoc(pieces: seq<string>, last: string, sep: char)
    requires |pieces| >= 1
    ensures Join(pieces + [last], sep) == Join(pieces, sep) + [sep] + last
  {
    if |pieces| == 1 {
      assert (pieces + [last])[1..] == [last];
    } else {
      JoinSnoc(pieces[1..], last, sep);
      assert (pieces + [last])[1..] == pieces[1..] + [last];
    }
  }

  /** Total length of a sequence of strings. */
  function TotalLength(pieces: seq<string>): nat
  {
    if pieces == [] then 0 else |pieces[0]| + TotalLength(pieces[1..])
  }

  /** The joined string holds every piece and one separator between each two neighbours. */
  lemma {:induction false} JoinLength(pieces: seq<string>, sep: char)
    ensures |pieces| >= 1 ==> |Join(pieces, sep)| == TotalLength(pieces) + |pieces| - 1
  {
    if |pieces| > 1 {
      JoinLength(pieces[1..], sep);
    }
  }

  /**
   Where the `k`-th piece starts in the joined string: the total length of
   the earlier pieces plus one separator after each of them.
   */
  function Offset(pieces: seq<string>, k: nat): nat
    requires k <= |pieces|
  {
    if k == 0 then 0 else |pieces[0]| + 1 + Offset(pieces[1..], k - 1)
  }

  /** The `k`-th piece sits verbatim at its offset, followed by a separator unless it is the last. */
  lemma {:induction false} JoinPieceAt(pieces: seq<string>, sep: char, k: nat)
    requires k < |pieces|
    ensures Offset(pieces, k) + |pieces[k]| <= |Join(pieces, sep)|
    ensures Join(pieces, sep)[Offset(pieces, k)..Offset(pieces, k) + |pieces[k]|] == pieces[k]
    ensures k < |pieces| - 1 ==>
      Offset(pieces, k) + |pieces[k]| < |Join(pieces, sep)| && Join(pieces, sep)[Offset(pieces, k) + |pieces[k]|] == sep
    ensures k == |pieces| - 1 ==> |Join(pieces, sep)| == Offset(pieces, k) + |pieces[k]|
  {
    if |pieces| > 1 {
      var tail := pieces[1..];
      var r, rest := Join(pieces, sep), Join(tail, sep);
      var d := |pieces[0]| + 1;
      assert r == pieces[0] + [sep] + rest;
      if k == 0 {
        assert r[..|pieces[0]|] == pieces[0];
      } else {
        JoinPieceAt(tail, sep, k - 1);
        assert pieces[k] == tail[k - 1];
        var o := Offset(tail, k - 1);
        assert Offset(pieces, k) == d + o;
        assert r[d..] == rest;
        assert r[d + o..d + o + |pieces[k]|] == rest[o..o + |pieces[k]|];
      }
    }
  }

  /**
   The joined string holds every piece verbatim at its offset, in order, and
   exactly one separator right after each piece but the last.
   */
  lemma JoinPieces(pieces: seq<string>, sep: char)
    requires |pieces| >= 1
    ensures |Join(pieces, sep)| == Offset(pieces, |pieces| - 1) + |pieces[|pieces| - 1]|
    ensures forall k :: 0 <= k < |pieces| ==>
      && Offset(pieces, k) + |pieces[k]| <= |Join(pieces, sep)|
      && Join(pieces, sep)[Offset(pieces, k)..Offset(pieces, k) + |pieces[k]|] == pieces[k]
    ensures forall k :: 0 <= k < |pieces| - 1 ==>
      && Offset(pieces, k) + |pieces[k]| < |Join(pieces, sep)|
      && Join(pieces, sep)[Offset(pieces, k) + |pieces[k]|] == sep
  {
    forall k | 0 <= k < |pieces|
      ensures Offset(pieces, k) + |pieces[k]| <= |Join(pieces, sep)|
      ensures Join(pieces, sep)[Offset(pieces, k)..Offset(pieces, k) + |pieces[k]|] == pieces[k]
      ensures k < |pieces| - 1 ==>
        Offset(pieces, k) + |pieces[k]| < |Join(pieces, sep)| && Join(pieces, sep)[Offset(pieces, k) + |pieces[k]|] == sep
    {
      JoinPieceAt(pieces, sep, k);
    }
    JoinPieceAt(pieces, sep, |pieces| - 1);
  }

  /**
   The joined string is empty exactly when there is no piece, or one piece
   that is itself empty: two pieces always leave a separator behind.
   */
  lemma JoinEmpty(pieces: seq<string>, sep: char)
    ensures Join(pieces, sep) == "" <==> |pieces| == 0 || (|pieces| == 1 && pieces[0] == "")
  {
    if |pieces| > 1 {
      assert |Join(pieces, sep)| >= 1;
    }
  }

  /** `Lower` applied to every piece. */
  function LowerAll(pieces: seq<string>): (r: seq<string>)
    ensures |r| == |pieces|
    ensures forall k :: 0 <= k < |pieces| ==> r[k] == Lower(pieces[k])
  {
    seq(|pieces|, k requires 0 <= k < |pieces| => Lower(pieces[k]))
  }

  /** Lower-casing a joined string lower-cases each piece and keeps the separators. */
  lemma {:induction false} LowerJoin(pieces: seq<string>, sep: char)
    requires !('A' <= sep <= 'Z')
    ensures Lower(Join(pieces, sep)) == Join(LowerAll(pieces), sep)
  {
    if |pieces| > 1 {
      LowerJoin(pieces[1..], sep);
      var rest := Join(pieces[1..], sep);
      assert Lower(pieces[0] + [sep] + rest) == Lower(pieces[0]) + [sep] + Lower(rest);
      assert LowerAll(pieces)[1..] == LowerAll(pieces[1..]);
    }
  }
}
