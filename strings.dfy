/** The JavaScript string primitives the request helpers rely on:
    `String.prototype.split(" ")`, its inverse `join(" ")`, and the
    whitespace trimming that the `trim()` sanitizer performs (validator.js
    strips the characters of JavaScript's `\s` class from both ends). */
module Strings {

  /** The characters matched by JavaScript's regular-expression class `\s`. */
  predicate IsWhitespace(c: char) {
    c == ' ' || c == '\t' || c == '\n' || c == '\U{000B}' || c == '\U{000C}' || c == '\r'
    || c == '\U{00A0}' || c == '\U{1680}' || ('\U{2000}' <= c <= '\U{200A}')
    || c == '\U{2028}' || c == '\U{2029}' || c == '\U{202F}' || c == '\U{205F}'
    || c == '\U{3000}' || c == '\U{FEFF}'
  }

  /** validator.js `ltrim(str)`: leading whitespace removed. */
  function TrimStart(s: string): (r: string)
    ensures |r| <= |s|
  {
    if s != [] && IsWhitespace(s[0]) then TrimStart(s[1..]) else s
  }

  /** validator.js `rtrim(str)`: trailing whitespace removed. */
  function TrimEnd(s: string): (r: string)
    ensures |r| <= |s|
  {
    if s != [] && IsWhitespace(s[|s| - 1]) then TrimEnd(s[..|s| - 1]) else s
  }

  /** validator.js `trim(str)`: left trim, then right trim. */
  function Trim(s: string): (r: string)
    ensures |r| <= |s|
  {
    TrimEnd(TrimStart(s))
  }

  /** Left trimming keeps a suffix, drops only whitespace, and leaves a
      string that does not start with whitespace. */
  lemma {:induction false} TrimStartSpec(s: string)
    ensures var r := TrimStart(s);
      && |r| <= |s| && r == s[|s| - |r|..]
      && (forall k :: 0 <= k < |s| - |r| ==> IsWhitespace(s[k]))
      && (r == [] || !IsWhitespace(r[0]))
  {
    if s != [] && IsWhitespace(s[0]) {
      TrimStartSpec(s[1..]);
    }
  }

  /** Right trimming keeps a prefix, drops only whitespace, and leaves a
      string that does not end with whitespace. */
  lemma {:induction false} TrimEndSpec(s: string)
    ensures var r := TrimEnd(s);
      && |r| <= |s| && r == s[..|r|]
      && (forall k :: |r| <= k < |s| ==> IsWhitespace(s[k]))
      && (r == [] || !IsWhitespace(r[|r| - 1]))
  {
    if s != [] && IsWhitespace(s[|s| - 1]) {
      TrimEndSpec(s[..|s| - 1]);
    }
  }

  /** What trimming leaves: the stretch of `s` that remains once the
      whitespace at both ends is cut off, neither starting nor ending with
      whitespace. */
  lemma TrimSpec(s: string)
    ensures var r := Trim(s); var i := |s| - |TrimStart(s)|;
      && i + |r| <= |s| && r == s[i..i + |r|]
      && (forall k :: 0 <= k < i ==> IsWhitespace(s[k]))
      && (forall k :: i + |r| <= k < |s| ==> IsWhitespace(s[k]))
      && (r == [] || (!IsWhitespace(r[0]) && !IsWhitespace(r[|r| - 1])))
  {
    var left := TrimStart(s);
    var r := TrimEnd(left);
    var i := |s| - |left|;
    TrimStartSpec(s);
    TrimEndSpec(left);
    assert r == s[i..][..|r|];
    forall k | i + |r| <= k < |s| ensures IsWhitespace(s[k]) {
      assert s[k] == left[k - i];
    }
    if r != [] {
      assert r[0] == left[0];
    }
  }

  /** Trimming leaves nothing exactly when every character is whitespace. */
  lemma TrimEmpty(s: string)
    ensures Trim(s) == [] <==> forall k :: 0 <= k < |s| ==> IsWhitespace(s[k])
  {
    TrimSpec(s);
    var left := TrimStart(s);
    TrimStartSpec(s);
    if Trim(s) == [] {
      TrimEndSpec(left);
      assert left == [];
    } else {
      assert !IsWhitespace(s[|s| - |left|]);
    }
  }

  /** A string that neither starts nor ends with whitespace is its own trim. */
  lemma TrimUnchanged(s: string)
    requires s == [] || (!IsWhitespace(s[0]) && !IsWhitespace(s[|s| - 1]))
    ensures Trim(s) == s
  {
  }

  /** Trimming twice is trimming once. */
  lemma TrimIdempotent(s: string)
    ensures Trim(Trim(s)) == Trim(s)
  {
    TrimSpec(s);
    TrimUnchanged(Trim(s));
  }

  /** Trimming a string with one trailing space drops exactly that space
      when what precedes it does not end with whitespace. */
  lemma TrimDropsTrailingSpace(s: string)
    requires s == [] || (!IsWhitespace(s[0]) && !IsWhitespace(s[|s| - 1]))
    ensures Trim(s + " ") == s
  {
    var t := s + " ";
    if s == [] {
    } else {
      assert TrimStart(t) == t;
      assert t[..|t| - 1] == s;
      assert TrimEnd(t) == TrimEnd(s);
    }
  }

  /** JavaScript `s.split(" ")`: the pieces between consecutive spaces, with
      an empty piece wherever two spaces meet or a space starts or ends `s`;
      `"".split(" ")` is `[""]`. */
  function Split(s: string): (parts: seq<string>)
    ensures |parts| >= 1
    ensures forall i :: 0 <= i < |parts| ==> ' ' !in parts[i]
  {
    if s == [] then [[]]
    else
      var rest := Split(s[1..]);
      if s[0] == ' ' then [[]] + rest
      else [[s[0]] + rest[0]] + rest[1..]
  }

  /** JavaScript `parts.join(" ")`. */
  function Join(parts: seq<string>): string {
    if |parts| == 0 then []
    else if |parts| == 1 then parts[0]
    else parts[0] + " " + Join(parts[1..])
  }

  /** Joining the pieces of a split gives back the string. */
  lemma {:induction false} JoinSplit(s: string)
    ensures Join(Split(s)) == s
  {
    if s != [] {
      var rest := Split(s[1..]);
      JoinSplit(s[1..]);
      if s[0] == ' ' {
        assert Split(s) == [[]] + rest;
        assert ([[]] + rest)[1..] == rest;
      } else {
        var parts := [[s[0]] + rest[0]] + rest[1..];
        assert Split(s) == parts;
        if |rest| == 1 {
          assert Join(parts) == [s[0]] + rest[0] == [s[0]] + Join(rest);
        } else {
          assert parts[1..] == rest[1..];
          assert Join(rest) == rest[0] + " " + Join(rest[1..]);
          assert Join(parts) == [s[0]] + rest[0] + " " + Join(rest[1..]);
        }
        assert s == [s[0]] + s[1..];
      }
    }
  }

  /** A string without spaces splits into itself. */
  lemma {:induction false} SplitNoSpace(a: string)
    requires ' ' !in a
    ensures Split(a) == [a]
  {
    if a != [] {
      assert ' ' !in a[1..] by { assert forall k :: 0 <= k < |a[1..]| ==> a[1..][k] == a[k + 1]; }
      SplitNoSpace(a[1..]);
      assert [a[0]] + a[1..] == a;
    }
  }

  /** A space-free first piece followed by a space splits off as one piece. */
  lemma {:induction false} SplitCons(a: string, b: string)
    requires ' ' !in a
    ensures Split(a + " " + b) == [a] + Split(b)
  {
    var s := a + " " + b;
    if a == [] {
      assert s[0] == ' ' && s[1..] == b;
    } else {
      assert ' ' !in a[1..] by { assert forall k :: 0 <= k < |a[1..]| ==> a[1..][k] == a[k + 1]; }
      SplitCons(a[1..], b);
      assert s[1..] == a[1..] + " " + b;
      var rest := Split(s[1..]);
      assert rest == [a[1..]] + Split(b);
      assert [s[0]] + rest[0] == a;
      assert rest[1..] == Split(b);
    }
  }

  /** Splitting the join of space-free pieces gives back the pieces. */
  lemma {:induction false} SplitJoin(parts: seq<string>)
    requires |parts| >= 1
    requires forall i :: 0 <= i < |parts| ==> ' ' !in parts[i]
    ensures Split(Join(parts)) == parts
  {
    if |parts| == 1 {
      SplitNoSpace(parts[0]);
    } else {
      SplitJoin(parts[1..]);
      SplitCons(parts[0], Join(parts[1..]));
      assert [parts[0]] + parts[1..] == parts;
    }
  }

  /** The join of two or more pieces is the join of all but the last, a
      space, and the last. */
  lemma {:induction false} JoinSnoc(parts: seq<string>)
    requires |parts| >= 2
    ensures Join(parts) == Join(parts[..|parts| - 1]) + " " + parts[|parts| - 1]
  {
    var n := |parts|;
    if n > 2 {
      JoinSnoc(parts[1..]);
      assert parts[1..][..n - 2] == parts[..n - 1][1..];
      assert Join(parts[..n - 1]) == parts[0] + " " + Join(parts[..n - 1][1..]);
    }
  }

  /** `t` is the final space-free stretch of `s`: a suffix of `s` without
      spaces that is either all of `s` or preceded by a space. */
  predicate IsLastSegment(s: string, t: string) {
    |t| <= |s| && s[|s| - |t|..] == t && ' ' !in t
    && (|t| == |s| || s[|s| - |t| - 1] == ' ')
  }

  /** The last piece of a split is the final space-free stretch. */
  lemma LastPieceIsLastSegment(s: string)
    ensures IsLastSegment(s, Split(s)[|Split(s)| - 1])
  {
    var parts := Split(s);
    var n := |parts|;
    JoinSplit(s);
    if n >= 2 {
      JoinSnoc(parts);
      var t := parts[n - 1];
      assert s == Join(parts[..n - 1]) + " " + t;
      assert s[|s| - |t|..] == t;
      assert s[|s| - |t| - 1] == ' ';
    }
  }

  /** A string has only one final space-free stretch. */
  lemma {:induction false} LastSegmentUnique(s: string, t1: string, t2: string)
    requires IsLastSegment(s, t1) && IsLastSegment(s, t2)
    ensures t1 == t2
  {
  }

  /** An independent definition of the final space-free stretch, read from
      the right end of the string. */
  function AfterLastSpace(s: string): (t: string)
    ensures IsLastSegment(s, t)
  {
    if s == [] || s[|s| - 1] == ' ' then []
    else
      var t' := AfterLastSpace(s[..|s| - 1]);
      assert s[..|s| - 1][|s| - 1 - |t'|..] == s[|s| - 1 - |t'|..|s| - 1];
      t' + [s[|s| - 1]]
  }
}
