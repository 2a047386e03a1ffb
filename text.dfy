/** The parts of Rust's `str` API that the modelled code relies on, written
    out over `seq<char>`: `starts_with`, `trim_start_matches`, `trim`,
    `trim_start`, `contains`, `lines`, decimal formatting of integers and
    `parse::<i32>`. */
module Text {
  import opened Wrappers

  predicate StartsWith(s: string, p: string) {
    |p| <= |s| && s[..|p|] == p
  }

  /** `s` is zero or more copies of `p` laid end to end. */
  predicate IsRepetition(s: string, p: string)
    requires p != []
    decreases |s|
  {
    s == [] || (StartsWith(s, p) && IsRepetition(s[|p|..], p))
  }

  /** `str::trim_start_matches` with a string pattern: strips `p` from the
      front as many times as it occurs there. */
  function TrimStartMatches(s: string, p: string): (r: string)
    ensures |r| <= |s| && r == s[|s| - |r|..]
    ensures p != [] ==> !StartsWith(r, p) && IsRepetition(s[..|s| - |r|], p)
    decreases |s|
  {
    if p != [] && StartsWith(s, p) then
      var r := TrimStartMatches(s[|p|..], p);
      assert s[|p|..][..|s| - |p| - |r|] == s[|p|..|s| - |r|];
      assert s[..|s| - |r|][|p|..] == s[|p|..|s| - |r|];
      r
    else s
  }

  /** A non-empty repetition ends with the last character of the pattern. */
  lemma {:induction false} RepetitionLast(s: string, p: string)
    requires p != [] && s != [] && IsRepetition(s, p)
    ensures s[|s| - 1] == p[|p| - 1]
    decreases |s|
  {
    if |s| == |p| {
      assert s == s[..|p|];
    } else {
      RepetitionLast(s[|p|..], p);
    }
  }

  /** Rust's `char::is_whitespace`: the Unicode White_Space property. */
  predicate IsWhitespace(c: char) {
    ('\t' <= c <= '\r') || c == ' ' || c == '\U{0085}' || c == '\U{00A0}' || c == '\U{1680}'
    || ('\U{2000}' <= c <= '\U{200A}') || c == '\U{2028}' || c == '\U{2029}'
    || c == '\U{202F}' || c == '\U{205F}' || c == '\U{3000}'
  }

  /** `str::trim_start`. */
  function TrimStart(s: string): (r: string)
    ensures |r| <= |s|
    ensures r == [] || !IsWhitespace(r[0])
    decreases |s|
  {
    if s != [] && IsWhitespace(s[0]) then TrimStart(s[1..]) else s
  }

  /** What `trim_start` leaves is a suffix of its input. */
  lemma {:induction false} TrimStartIsSuffix(s: string)
    ensures TrimStart(s) == s[|s| - |TrimStart(s)|..]
    decreases |s|
  {
    if s != [] && IsWhitespace(s[0]) {
      TrimStartIsSuffix(s[1..]);
    }
  }

  /** `trim_start` removes whitespace only. */
  lemma {:induction false} TrimStartRemovesWhitespace(s: string)
    ensures forall i :: 0 <= i < |s| - |TrimStart(s)| ==> IsWhitespace(s[i])
    decreases |s|
  {
    if s != [] && IsWhitespace(s[0]) {
      TrimStartRemovesWhitespace(s[1..]);
    }
  }

  /** `str::trim_end`. */
  function TrimEnd(s: string): (r: string)
    ensures |r| <= |s| && r == s[..|r|]
    ensures r == [] || !IsWhitespace(r[|r| - 1])
    decreases |s|
  {
    if s != [] && IsWhitespace(s[|s| - 1]) then TrimEnd(s[..|s| - 1]) else s
  }

  /** `trim_end` removes whitespace only. */
  lemma {:induction false} TrimEndRemovesWhitespace(s: string)
    ensures forall i :: |TrimEnd(s)| <= i < |s| ==> IsWhitespace(s[i])
    decreases |s|
  {
    if s != [] && IsWhitespace(s[|s| - 1]) {
      TrimEndRemovesWhitespace(s[..|s| - 1]);
    }
  }

  /** `str::trim`: the infix left once leading and trailing whitespace is gone. */
  function Trim(s: string): (r: string)
    ensures |r| <= |s|
    ensures r == [] || (!IsWhitespace(r[0]) && !IsWhitespace(r[|r| - 1]))
  {
    TrimEnd(TrimStart(s))
  }

  /** Every character `trim` keeps comes from its input. */
  lemma TrimKeepsCharacters(s: string)
    ensures forall c :: c in Trim(s) ==> c in s
  {
    var t := TrimStart(s);
    var r := TrimEnd(t);
    TrimStartIsSuffix(s);
    assert forall i :: 0 <= i < |r| ==> r[i] == s[|s| - |t| + i];
  }

  /** `p` is a prefix of `s`, compared character by character. */
  predicate PrefixAt(s: string, p: string)
    decreases |p|
  {
    p == [] || (s != [] && s[0] == p[0] && PrefixAt(s[1..], p[1..]))
  }

  /** The character-by-character comparison is `starts_with`. */
  lemma {:induction false} PrefixAtIsStartsWith(s: string, p: string)
    ensures PrefixAt(s, p) <==> StartsWith(s, p)
    decreases |p|
  {
    if p != [] && s != [] {
      PrefixAtIsStartsWith(s[1..], p[1..]);
      if s[0] == p[0] && StartsWith(s[1..], p[1..]) {
        assert s[..|p|] == [s[0]] + s[1..][..|p| - 1];
        assert p == [p[0]] + p[1..];
      }
      if StartsWith(s, p) {
        assert s[1..][..|p| - 1] == s[..|p|][1..];
      }
    }
  }

  /** `str::contains` with a string pattern; the empty pattern is found everywhere. */
  predicate Contains(s: string, p: string)
    decreases |s|
  {
    PrefixAt(s, p) || (s != [] && Contains(s[1..], p))
  }

  // ---------------------------------------------------------------------
  // Lines

  /** The index of the first `\n` in `s`, or `|s|` when there is none. */
  function IndexOfNewline(s: string): (i: nat)
    ensures i <= |s|
    ensures forall j :: 0 <= j < i ==> s[j] != '\n'
    ensures i < |s| ==> s[i] == '\n'
  {
    if s == [] || s[0] == '\n' then 0 else 1 + IndexOfNewline(s[1..])
  }

  function StripCarriageReturn(l: string): string {
    if |l| > 0 && l[|l| - 1] == '\r' then l[..|l| - 1] else l
  }

  /** `str::lines`: split at `\n`, drop one `\r` before each `\n`, and emit no
      empty line after a final `\n`. A `\r` not followed by `\n` stays. */
  function Lines(s: string): (ls: seq<string>)
    ensures s == [] <==> ls == []
    decreases |s|
  {
    if s == [] then []
    else
      var i := IndexOfNewline(s);
      if i == |s| then [s] else [StripCarriageReturn(s[..i])] + Lines(s[i + 1..])
  }

  /** No line holds a `\n`. */
  lemma {:induction false} LinesHaveNoNewline(s: string, k: nat)
    requires k < |Lines(s)|
    ensures '\n' !in Lines(s)[k]
    decreases |s|
  {
    var i := IndexOfNewline(s);
    if i == |s| {
      assert '\n' !in s by {
        forall c | c in s ensures c != '\n' {
          var j :| 0 <= j < |s| && s[j] == c;
        }
      }
    } else if k == 0 {
      var l := StripCarriageReturn(s[..i]);
      forall c | c in l ensures c != '\n' {
        var j :| 0 <= j < |l| && l[j] == c;
        assert s[..i][j] == c;
      }
    } else {
      LinesHaveNoNewline(s[i + 1..], k - 1);
    }
  }

  /** Every line followed by `\n`: what a write loop that separates lines
      with `\n` and ends a non-empty output with one more `\n` produces. */
  function Terminated(ls: seq<string>): (s: string)
    ensures ls != [] ==> s != [] && s[|s| - 1] == '\n'
    ensures ls == [] ==> s == []
  {
    if ls == [] then [] else ls[0] + "\n" + Terminated(ls[1..])
  }

  predicate IsPlainLine(l: string) {
    '\n' !in l && '\r' !in l
  }

  /** A plain line followed by `\n` and `rest` splits into that line and
      the lines of `rest`. */
  lemma LinesCons(l: string, rest: string)
    requires IsPlainLine(l)
    ensures Lines(l + "\n" + rest) == [l] + Lines(rest)
  {
    var s := l + "\n" + rest;
    IndexOfNewlineAfter(l, rest);
    assert s[..|l|] == l;
    assert s[|l| + 1..] == rest;
    assert StripCarriageReturn(l) == l by {
      if |l| > 0 { assert l[|l| - 1] in l; }
    }
  }

  /** Reading back what `Terminated` wrote gives the same lines. */
  lemma {:induction false} LinesOfTerminated(ls: seq<string>)
    requires forall k :: 0 <= k < |ls| ==> IsPlainLine(ls[k])
    ensures Lines(Terminated(ls)) == ls
  {
    if ls != [] {
      var rest := ls[1..];
      forall k | 0 <= k < |rest| ensures IsPlainLine(rest[k]) {
        assert rest[k] == ls[k + 1];
      }
      LinesCons(ls[0], Terminated(rest));
      LinesOfTerminated(rest);
      assert [ls[0]] + rest == ls;
    }
  }

  lemma IndexOfNewlineAfter(l: string, rest: string)
    requires '\n' !in l
    ensures IndexOfNewline(l + "\n" + rest) == |l|
  {
    var s := l + "\n" + rest;
    assert forall j :: 0 <= j < |l| ==> s[j] == l[j];
    assert s[|l|] == '\n';
  }

  lemma {:induction false} TerminatedAppend(a: seq<string>, b: seq<string>)
    ensures Terminated(a + b) == Terminated(a) + Terminated(b)
  {
    if a != [] {
      assert (a + b)[1..] == a[1..] + b;
      TerminatedAppend(a[1..], b);
    } else {
      assert a + b == b;
    }
  }

  // ---------------------------------------------------------------------
  // Decimal numbers

  predicate IsDigit(c: char) {
    '0' <= c <= '9'
  }

  predicate AllDigits(s: string) {
    forall i :: 0 <= i < |s| ==> IsDigit(s[i])
  }

  function DigitChar(d: nat): (c: char)
    requires d < 10
    ensures IsDigit(c) && (c as int) - ('0' as int) == d
  {
    (('0' as int) + d) as char
  }

  /** The value of a string of decimal digits. */
  function DigitsValue(s: string): nat
    requires AllDigits(s)
  {
    if s == [] then 0 else DigitsValue(s[..|s| - 1]) * 10 + ((s[|s| - 1] as int) - ('0' as int))
  }

  /** The decimal rendering of `n`, as `format!("{}", n)` prints it. */
  function NatToString(n: nat): (s: string)
    ensures s != []
  {
    if n < 10 then [DigitChar(n)] else NatToString(n / 10) + [DigitChar(n % 10)]
  }

  /** `NatToString` writes only digits, without a leading zero, and reading
      them back gives the number. */
  lemma {:induction false} NatToStringDigits(n: nat)
    ensures var s := NatToString(n);
            AllDigits(s) && DigitsValue(s) == n && (|s| > 1 ==> s[0] != '0')
  {
    if n >= 10 {
      NatToStringDigits(n / 10);
      var p := NatToString(n / 10);
      var s := NatToString(n);
      assert s == p + [DigitChar(n % 10)];
      assert s[..|s| - 1] == p;
      assert s[0] == p[0];
      forall i | 0 <= i < |s| ensures IsDigit(s[i]) {
        if i < |p| {
          assert s[i] == p[i];
        }
      }
    }
  }

  const I32Min: int := -0x8000_0000
  const I32Max: int := 0x7FFF_FFFF

  /** `str::parse::<i32>`: an optional `+` or `-`, then one or more ASCII
      digits, with a value inside the 32-bit signed range; anything else is
      an error (`None`). */
  function ParseI32(s: string): (r: Option<int>)
    ensures r.Some? ==> I32Min <= r.value <= I32Max
  {
    if s == [] then None
    else
      var negative := s[0] == '-';
      var digits := if s[0] == '-' || s[0] == '+' then s[1..] else s;
      if digits == [] || !AllDigits(digits) then None
      else
        var n: int := DigitsValue(digits);
        var v := if negative then -n else n;
        if I32Min <= v <= I32Max then Some(v) else None
  }

  /** An unsigned digit string is read as its value when that fits. */
  lemma ParseI32Digits(s: string)
    requires AllDigits(s) && s != []
    ensures ParseI32(s) == if DigitsValue(s) <= I32Max then Some(DigitsValue(s)) else None
  {
    assert IsDigit(s[0]);
  }

  // ---------------------------------------------------------------------
  // Sequences

  predicate IsPrefix<T(==)>(a: seq<T>, b: seq<T>) {
    |a| <= |b| && b[..|a|] == a
  }

  /** `a` is `b` with some elements left out, the rest kept in order. */
  predicate IsSubsequence<T(==)>(a: seq<T>, b: seq<T>)
    decreases |b|
  {
    if a == [] then true
    else if b == [] then false
    else if a[|a| - 1] == b[|b| - 1] then IsSubsequence(a[..|a| - 1], b[..|b| - 1])
    else IsSubsequence(a, b[..|b| - 1])
  }

  lemma {:induction false} SubsequenceDropLast<T>(a: seq<T>, b: seq<T>)
    requires a != [] && IsSubsequence(a, b)
    ensures IsSubsequence(a[..|a| - 1], b)
    decreases |b|, 0
  {
    var a' := a[..|a| - 1];
    var b' := b[..|b| - 1];
    if a[|a| - 1] == b[|b| - 1] {
      SubsequenceExtend(a', b', b[|b| - 1]);
      assert b' + [b[|b| - 1]] == b;
    } else {
      SubsequenceDropLast(a, b');
      SubsequenceExtend(a', b', b[|b| - 1]);
      assert b' + [b[|b| - 1]] == b;
    }
  }

  /** One step of a filter: the longer sequence gains `x`, the filtered one
      gains it or not. */
  lemma SubsequenceStep<T>(a: seq<T>, b: seq<T>, x: T, keep: bool)
    requires IsSubsequence(a, b)
    ensures IsSubsequence(a + (if keep then [x] else []), b + [x])
  {
    if keep {
      assert (a + [x])[..|a|] == a;
      assert (b + [x])[..|b|] == b;
    } else {
      assert a + [] == a;
      SubsequenceExtend(a, b, x);
    }
  }

  /** Appending to the longer sequence keeps a subsequence one. */
  lemma {:induction false} SubsequenceExtend<T>(a: seq<T>, b: seq<T>, x: T)
    requires IsSubsequence(a, b)
    ensures IsSubsequence(a, b + [x])
    decreases |b|, 1
  {
    var bx := b + [x];
    assert bx[..|bx| - 1] == b;
    if a != [] && a[|a| - 1] == x {
      SubsequenceDropLast(a, b);
    }
  }
}
