/** Newline-separated text as Python's str.join / str.split treat it, ASCII case
    mapping, and substring search: the string operations the ingestion script
    and the chatbot are built from. */
module Text {

  /** Number of newline characters in `s`. */
  function NewlineCount(s: string): nat
  {
    if s == [] then 0 else (if s[0] == '\n' then 1 else 0) + NewlineCount(s[1..])
  }

  /** `"\n".join(parts)`: the empty list joins to the empty string. */
  function Join(parts: seq<string>): string
  {
    if |parts| == 0 then ""
    else if |parts| == 1 then parts[0]
    else parts[0] + "\n" + Join(parts[1..])
  }

  /** `s.split("\n")`: the pieces between newlines, empty pieces included.
      There is always one piece more than there are newlines, and no piece
      holds a newline. */
  function Split(s: string): (pieces: seq<string>)
    ensures |pieces| == NewlineCount(s) + 1
    ensures forall i :: 0 <= i < |pieces| ==> '\n' !in pieces[i]
  {
    if s == [] then [""]
    else
      var rest := Split(s[1..]);
      if s[0] == '\n' then [""] + rest
      else [[s[0]] + rest[0]] + rest[1..]
  }

  predicate NoNewlines(parts: seq<string>)
  {
    forall i :: 0 <= i < |parts| ==> '\n' !in parts[i]
  }

  lemma {:induction false} NewlineCountAppend(a: string, b: string)
    ensures NewlineCount(a + b) == NewlineCount(a) + NewlineCount(b)
  {
    if a == [] {
      assert a + b == b;
    } else {
      assert (a + b)[0] == a[0];
      assert (a + b)[1..] == a[1..] + b;
      NewlineCountAppend(a[1..], b);
    }
  }

  /** Joining adds one newline between consecutive parts. */
  lemma {:induction false} JoinNewlineCount(parts: seq<string>)
    ensures NewlineCount(Join(parts)) >= |parts| - 1
  {
    if |parts| > 1 {
      var tail := Join(parts[1..]);
      JoinNewlineCount(parts[1..]);
      assert Join(parts) == parts[0] + ("\n" + tail);
      NewlineCountAppend(parts[0], "\n" + tail);
      NewlineCountAppend("\n", tail);
      assert NewlineCount("\n") == 1 + NewlineCount("");
    }
  }

  lemma {:induction false} JoinAfterHead(h: string, rest: seq<string>)
    requires |rest| >= 1
    ensures Join([h + rest[0]] + rest[1..]) == h + Join(rest)
  {
    var first, more := rest[0], rest[1..];
    var parts := [h + first] + more;
    if more == [] {
      assert parts == [h + first];
      assert rest == [first];
    } else {
      assert parts[0] == h + first && parts[1..] == more;
      assert rest[1..] == more;
      var j := Join(more);
      calc {
        Join(parts);
        (h + first) + "\n" + j;
        h + (first + "\n" + j);
        h + Join(rest);
      }
    }
  }

  /** Splitting and joining again gives back the text unchanged. */
  lemma {:induction false} JoinSplit(s: string)
    ensures Join(Split(s)) == s
  {
    if s != [] {
      var rest := Split(s[1..]);
      JoinSplit(s[1..]);
      if s[0] == '\n' {
        assert ([""] + rest)[1..] == rest;
      } else {
        JoinAfterHead([s[0]], rest);
      }
    }
  }

  /** A text without newlines is a single piece. */
  lemma {:induction false} SplitSingle(s: string)
    requires '\n' !in s
    ensures Split(s) == [s]
  {
    if s != [] {
      assert s[0] != '\n' && '\n' !in s[1..];
      SplitSingle(s[1..]);
      assert [s[0]] + s[1..] == s;
    }
  }

  /** Splitting distributes over a newline: the pieces of `a` come first, then
      those of `b`. */
  lemma {:induction false} SplitAppend(a: string, b: string)
    ensures Split(a + "\n" + b) == Split(a) + Split(b)
  {
    var s := a + "\n" + b;
    if a == [] {
      assert s == "\n" + b;
      assert s[1..] == b;
    } else {
      assert s[1..] == a[1..] + "\n" + b;
      SplitAppend(a[1..], b);
      var A := Split(a[1..]);
      if a[0] != '\n' {
        assert (A + Split(b))[0] == A[0];
        assert (A + Split(b))[1..] == A[1..] + Split(b);
      }
    }
  }

  /** Joining newline-free parts and splitting again gives back the parts. */
  lemma {:induction false} SplitJoin(parts: seq<string>)
    requires |parts| >= 1 && NoNewlines(parts)
    ensures Split(Join(parts)) == parts
  {
    if |parts| == 1 {
      SplitSingle(parts[0]);
    } else {
      SplitJoin(parts[1..]);
      SplitSingle(parts[0]);
      SplitAppend(parts[0], Join(parts[1..]));
    }
  }

  /** A text ending in a newline splits into pieces whose last one is empty. */
  lemma SplitEndsBlank(s: string)
    requires |s| > 0 && s[|s| - 1] == '\n'
    ensures |Split(s)| >= 2 && Split(s)[|Split(s)| - 1] == ""
  {
    assert s == s[..|s| - 1] + "\n" + "";
    SplitAppend(s[..|s| - 1], "");
  }

  /** An empty line between `a` and `b` stays as an empty piece. */
  lemma SplitBlankLine(a: string, b: string)
    ensures Split(a + "\n\n" + b) == Split(a) + [""] + Split(b)
  {
    assert a + "\n\n" + b == a + "\n" + ("" + "\n" + b);
    SplitAppend(a, "" + "\n" + b);
    SplitAppend("", b);
  }

  // ASCII case mapping

  predicate IsAsciiUpper(c: char) { 'A' <= c <= 'Z' }

  predicate IsAsciiLower(c: char) { 'a' <= c <= 'z' }

  function LowerChar(c: char): char
  {
    if IsAsciiUpper(c) then (c as int + 32) as char else c
  }

  function UpperChar(c: char): char
  {
    if IsAsciiLower(c) then (c as int - 32) as char else c
  }

  /** `s.lower()` restricted to ASCII letters: each capital becomes its own
      small letter, every other character stays as it is. */
  function Lower(s: string): (r: string)
    ensures |r| == |s|
    ensures forall i :: 0 <= i < |r| ==> !IsAsciiUpper(r[i])
    ensures forall i :: 0 <= i < |s| ==>
      (!IsAsciiUpper(s[i]) ==> r[i] == s[i]) &&
      (IsAsciiUpper(s[i]) ==> IsAsciiLower(r[i]) && UpperChar(r[i]) == s[i])
  {
    seq(|s|, i requires 0 <= i < |s| => LowerChar(s[i]))
  }

  /** `s.upper()` restricted to ASCII letters: each small letter becomes its
      own capital, every other character stays as it is. */
  function Upper(s: string): (r: string)
    ensures |r| == |s|
    ensures forall i :: 0 <= i < |r| ==> !IsAsciiLower(r[i])
    ensures forall i :: 0 <= i < |s| ==>
      (!IsAsciiLower(s[i]) ==> r[i] == s[i]) &&
      (IsAsciiLower(s[i]) ==> IsAsciiUpper(r[i]) && LowerChar(r[i]) == s[i])
  {
    seq(|s|, i requires 0 <= i < |s| => UpperChar(s[i]))
  }

  /** Lowering forgets the case of the input: lowering an upper-cased or an
      already lowered text gives the same result as lowering the text. */
  lemma LowerForgetsCase(s: string)
    ensures Lower(Upper(s)) == Lower(s)
    ensures Lower(Lower(s)) == Lower(s)
  {
    assert forall i :: 0 <= i < |s| ==> Lower(Upper(s))[i] == Lower(s)[i];
    assert forall i :: 0 <= i < |s| ==> Lower(Lower(s))[i] == Lower(s)[i];
  }

  // Substring search

  predicate OccursAt(s: string, pat: string, i: int)
  {
    0 <= i && i + |pat| <= |s| && s[i..i + |pat|] == pat
  }

  /** Python's `pat in s`. */
  predicate Contains(s: string, pat: string)
    decreases |s|
  {
    |pat| <= |s| && (s[..|pat|] == pat || Contains(s[1..], pat))
  }

  /** `Contains` holds exactly when the pattern occurs at some position. */
  lemma {:induction false} ContainsIff(s: string, pat: string)
    ensures Contains(s, pat) <==> exists i :: OccursAt(s, pat, i)
    decreases |s|
  {
    if |pat| <= |s| {
      if s[..|pat|] == pat {
        assert OccursAt(s, pat, 0);
      } else {
        ContainsIff(s[1..], pat);
        if Contains(s[1..], pat) {
          var i :| OccursAt(s[1..], pat, i);
          assert s[i + 1..i + 1 + |pat|] == s[1..][i..i + |pat|];
          assert OccursAt(s, pat, i + 1);
        }
        if i :| OccursAt(s, pat, i) {
          assert i != 0;
          assert s[1..][i - 1..i - 1 + |pat|] == s[i..i + |pat|];
          assert OccursAt(s[1..], pat, i - 1);
        }
      }
    }
  }
}
