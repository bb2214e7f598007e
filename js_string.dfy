/** The three JavaScript string built-ins the tag parser relies on:
    `String.prototype.trim`, `String.prototype.split` with a one-character
    separator, and its inverse `Array.prototype.join`. */
module JsString {

  /** The code points `trim` removes: ECMAScript WhiteSpace (TAB, VT, FF, SP,
      NBSP, ZWNBSP and the Unicode space separators) and LineTerminator
      (LF, CR, LS, PS). */
  predicate IsWhitespace(c: char) {
    var n := c as int;
    || (0x09 <= n <= 0x0D)
    || n == 0x20 || n == 0xA0 || n == 0x1680
    || (0x2000 <= n <= 0x200A)
    || n == 0x2028 || n == 0x2029 || n == 0x202F || n == 0x205F
    || n == 0x3000 || n == 0xFEFF
  }

  ghost predicate AllWhitespace(s: string) {
    forall i :: 0 <= i < |s| ==> IsWhitespace(s[i])
  }

  /** Neither the first nor the last character is whitespace. */
  predicate Trimmed(s: string) {
    s == [] || (!IsWhitespace(s[0]) && !IsWhitespace(s[|s| - 1]))
  }

  /** `trimStart`: drops the whitespace at the front. */
  function TrimStart(s: string): string
    decreases |s|
  {
    if s != [] && IsWhitespace(s[0]) then TrimStart(s[1..]) else s
  }

  /** `trimEnd`: drops the whitespace at the back. */
  function TrimEnd(s: string): string
    decreases |s|
  {
    if s != [] && IsWhitespace(s[|s| - 1]) then TrimEnd(s[..|s| - 1]) else s
  }

  /** What `TrimStart` keeps is a suffix of `s` that does not start with
      whitespace, and what it drops is all whitespace. */
  lemma {:induction false} TrimStartSpec(s: string)
    ensures var r := TrimStart(s);
      && |r| <= |s| && r == s[|s| - |r|..]
      && AllWhitespace(s[..|s| - |r|])
      && (r == [] || !IsWhitespace(r[0]))
    decreases |s|
  {
    if s != [] && IsWhitespace(s[0]) {
      TrimStartSpec(s[1..]);
      var r := TrimStart(s[1..]);
      assert s[..|s| - |r|] == [s[0]] + s[1..][..|s| - 1 - |r|];
    }
  }

  /** What `TrimEnd` keeps is a prefix of `s` that does not end in
      whitespace, and what it drops is all whitespace. */
  lemma {:induction false} TrimEndSpec(s: string)
    ensures var r := TrimEnd(s);
      && |r| <= |s| && r == s[..|r|]
      && AllWhitespace(s[|r|..])
      && (r == [] || !IsWhitespace(r[|r| - 1]))
    decreases |s|
  {
    if s != [] && IsWhitespace(s[|s| - 1]) {
      TrimEndSpec(s[..|s| - 1]);
      var r := TrimEnd(s[..|s| - 1]);
      assert forall i :: |r| <= i < |s| - 1 ==> s[i] == s[..|s| - 1][i];
    }
  }

  /** `s.trim()`: no whitespace at either end, and only characters of `s`. */
  function Trim(s: string): (r: string)
    ensures Trimmed(r)
    ensures |r| <= |s| && forall c :: c in r ==> c in s
  {
    var front := TrimStart(s);
    TrimStartSpec(s);
    TrimEndSpec(front);
    var r := TrimEnd(front);
    assert r == s[|s| - |front|..][..|r|];
    r
  }

  /** What `trim` keeps is the slice of `s` between a run of leading and a
      run of trailing whitespace, so only whitespace is removed. */
  lemma TrimIsSlice(s: string)
    ensures exists i, j :: 0 <= i <= j <= |s| && Trim(s) == s[i..j]
                        && AllWhitespace(s[..i]) && AllWhitespace(s[j..])
  {
    var front := TrimStart(s);
    TrimStartSpec(s);
    TrimEndSpec(front);
    var r := TrimEnd(front);
    var i := |s| - |front|;
    assert r == s[i..i + |r|];
    assert s[i + |r|..] == front[|r|..];
  }

  /** A string with no whitespace at either end is its own trim. */
  lemma TrimOfTrimmed(s: string)
    requires Trimmed(s)
    ensures Trim(s) == s
  {
    TrimStartSpec(s);
  }

  /** Leading whitespace before a string that does not start with whitespace
      is exactly what `TrimStart` drops. */
  lemma {:induction false} TrimStartOfPadded(w: string, s: string)
    requires AllWhitespace(w) && (s == [] || !IsWhitespace(s[0]))
    ensures TrimStart(w + s) == s
    decreases |w|
  {
    if w == [] {
      assert w + s == s;
    } else {
      assert (w + s)[1..] == w[1..] + s;
      TrimStartOfPadded(w[1..], s);
    }
  }

  /** Trimming whitespace-padded trimmed text gives the text back. */
  lemma TrimOfPadded(w: string, s: string)
    requires AllWhitespace(w) && Trimmed(s)
    ensures Trim(w + s) == s
  {
    TrimStartOfPadded(w, s);
  }

  /** `s.split(sep)`: the maximal separator-free pieces of `s`, in order.
      Like JavaScript, the empty string splits into one empty piece. */
  function Split(s: string, sep: char): (parts: seq<string>)
    ensures |parts| >= 1
    ensures forall p :: p in parts ==> sep !in p
    decreases |s|
  {
    if s == [] then [[]]
    else
      var rest := Split(s[1..], sep);
      if s[0] == sep then [[]] + rest
      else [[s[0]] + rest[0]] + rest[1..]
  }

  /** `parts.join(sep)` for a one-character separator. */
  function Join(parts: seq<string>, sep: char): string
    decreases |parts|
  {
    if parts == [] then []
    else if |parts| == 1 then parts[0]
    else parts[0] + [sep] + Join(parts[1..], sep)
  }

  /** Joining the pieces of a split gives back the original string. */
  lemma {:induction false} JoinSplit(s: string, sep: char)
    ensures Join(Split(s, sep), sep) == s
    decreases |s|
  {
    if s != [] {
      var rest := Split(s[1..], sep);
      JoinSplit(s[1..], sep);
      if s[0] == sep {
        assert Join([[]] + rest, sep) == [] + [sep] + Join(rest, sep);
        assert s == [sep] + s[1..];
      } else {
        var parts := [[s[0]] + rest[0]] + rest[1..];
        assert parts[1..] == rest[1..];
        if |rest| == 1 {
          assert s == [s[0]] + s[1..];
        } else {
          assert Join(rest, sep) == rest[0] + [sep] + Join(rest[1..], sep);
          assert s == [s[0]] + s[1..];
        }
      }
    }
  }

  /** A separator-free prefix glues onto the first piece of what follows it. */
  lemma {:induction false} SplitGlue(a: string, b: string, sep: char)
    requires sep !in a
    ensures Split(a + b, sep) == [a + Split(b, sep)[0]] + Split(b, sep)[1..]
    decreases |a|
  {
    if a != [] {
      var parts := Split(b, sep);
      assert (a + b)[1..] == a[1..] + b;
      assert (a + b)[0] == a[0] != sep;
      SplitGlue(a[1..], b, sep);
      var rest := Split(a[1..] + b, sep);
      assert rest[0] == a[1..] + parts[0] && rest[1..] == parts[1..];
      assert [a[0]] + (a[1..] + parts[0]) == a + parts[0];
    } else {
      var parts := Split(b, sep);
      assert a + b == b;
      assert a + parts[0] == parts[0];
      assert parts == [parts[0]] + parts[1..];
    }
  }

  /** Splitting a join of separator-free pieces gives back the pieces. */
  lemma {:induction false} SplitJoin(parts: seq<string>, sep: char)
    requires |parts| >= 1
    requires forall p :: p in parts ==> sep !in p
    ensures Split(Join(parts, sep), sep) == parts
    decreases |parts|
  {
    if |parts| == 1 {
      SplitGlue(parts[0], [], sep);
      assert parts[0] + [] == parts[0];
    } else {
      var tail := Join(parts[1..], sep);
      SplitJoin(parts[1..], sep);
      assert Join(parts, sep) == parts[0] + ([sep] + tail);
      SplitGlue(parts[0], [sep] + tail, sep);
      assert ([sep] + tail)[1..] == tail;
      assert Split([sep] + tail, sep) == [[]] + parts[1..];
      assert parts[0] + [] == parts[0];
      assert parts == [parts[0]] + parts[1..];
    }
  }
}
