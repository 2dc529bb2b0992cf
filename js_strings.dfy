/**
 * The JavaScript string primitives the service relies on, each with the
 * meaning the ECMAScript library gives it: truthiness of an optional string,
 * `startsWith`, `includes`, `split(sep)`, `trim()` and the decimal rendering
 * of a non-negative integer inside a template literal.
 */
module JsStrings {
  import opened Wrappers

  /** A header, body field or environment value that may be `undefined`. */
  type OptString = Option<string>

  /** JavaScript truthiness of a value that is a string or `undefined`: the empty string is falsy. */
  predicate Truthy(o: OptString) {
    o.Some? && o.value != ""
  }

  /** `a || b` for two values that are each a string or `undefined`. */
  function Or(a: OptString, b: OptString): (r: OptString)
    ensures Truthy(a) ==> r == a
    ensures !Truthy(a) ==> r == b
  {
    if Truthy(a) then a else b
  }

  /** What a template literal `${v}` renders for a string or `undefined`. */
  function Render(o: OptString): (r: string)
    ensures o.Some? ==> r == o.value
    ensures o.None? ==> r == "undefined"
  {
    match o
    case Some(s) => s
    case None => "undefined"
  }

  // ---------------------------------------------------------------------------
  // startsWith / includes

  /** `s.startsWith(p)`. */
  predicate StartsWith(s: string, p: string) {
    |p| <= |s| && s[..|p|] == p
  }

  /** `s` has `t` at position `i`. */
  predicate OccursAt(s: string, t: string, i: int) {
    0 <= i && i + |t| <= |s| && s[i..i + |t|] == t
  }

  /** `s.includes(t)`: some position of `s` starts an occurrence of `t`. */
  predicate Contains(s: string, t: string) {
    exists i :: 0 <= i <= |s| - |t| && OccursAt(s, t, i)
  }

  /** `startsWith` as ECMAScript states it: `p` fits in `s` and agrees with it character by character. */
  lemma StartsWithPointwise(s: string, p: string)
    ensures StartsWith(s, p) <==> |p| <= |s| && forall i :: 0 <= i < |p| ==> s[i] == p[i]
  {
    if |p| <= |s| && forall i :: 0 <= i < |p| ==> s[i] == p[i] {
      assert s[..|p|] == p;
    }
  }

  /**
   * `includes` as ECMAScript states it: some position `k` of `s` is one at
   * which the rest of `s` starts with `t`; the empty string is in every string.
   */
  lemma ContainsIffStartsWithAt(s: string, t: string)
    ensures Contains(s, t) <==> exists k :: 0 <= k <= |s| - |t| && StartsWith(s[k..], t)
    ensures t == "" ==> Contains(s, t)
  {
    assert t == "" ==> OccursAt(s, t, 0);
    forall k | 0 <= k <= |s| - |t|
      ensures OccursAt(s, t, k) <==> StartsWith(s[k..], t)
    {
      assert s[k..][..|t|] == s[k..k + |t|];
    }
  }

  lemma StartsWithContains(s: string, p: string)
    requires StartsWith(s, p)
    ensures Contains(s, p)
  {
    assert OccursAt(s, p, 0);
  }

  lemma ContainsLeft(a: string, b: string, t: string)
    requires Contains(a, t)
    ensures Contains(a + b, t)
  {
    var i :| 0 <= i <= |a| - |t| && OccursAt(a, t, i);
    assert (a + b)[i..i + |t|] == a[i..i + |t|];
    assert OccursAt(a + b, t, i);
  }

  lemma ContainsRight(a: string, b: string, t: string)
    requires Contains(b, t)
    ensures Contains(a + b, t)
  {
    var i :| 0 <= i <= |b| - |t| && OccursAt(b, t, i);
    assert (a + b)[|a| + i..|a| + i + |t|] == b[i..i + |t|];
    assert OccursAt(a + b, t, |a| + i);
  }

  /** An occurrence at the start of a tail of `s` is an occurrence in `s`. */
  lemma StartsWithAt(s: string, k: nat, t: string)
    requires k <= |s| && StartsWith(s[k..], t)
    ensures Contains(s, t)
  {
    assert s[k..k + |t|] == s[k..][..|t|];
    assert OccursAt(s, t, k);
  }

  /** Every character of an occurring string is a character of the host. */
  lemma ContainsChar(s: string, t: string, c: char)
    requires Contains(s, t) && c in t
    ensures c in s
  {
    var i :| 0 <= i <= |s| - |t| && OccursAt(s, t, i);
    var j :| 0 <= j < |t| && t[j] == c;
    assert s[i..i + |t|][j] == s[i + j];
  }

  /** A string that lacks one character of `t` does not contain `t`. */
  lemma NotContainsByChar(s: string, t: string, c: char)
    requires c in t && c !in s
    ensures !Contains(s, t)
  {
    if Contains(s, t) {
      ContainsChar(s, t, c);
    }
  }

  /** No occurrence of `t` in `a + b` begins inside `a` and ends inside `b`. */
  ghost predicate NoStraddle(a: string, b: string, t: string) {
    forall i :: 0 <= i < |a| < i + |t| ==> !OccursAt(a + b, t, i)
  }

  /** Without straddling occurrences, `a + b` contains `t` iff one of its halves does. */
  lemma ContainsConcat(a: string, b: string, t: string)
    requires NoStraddle(a, b, t)
    ensures Contains(a + b, t) <==> Contains(a, t) || Contains(b, t)
  {
    if Contains(a, t) {
      ContainsLeft(a, b, t);
    }
    if Contains(b, t) {
      ContainsRight(a, b, t);
    }
    if Contains(a + b, t) && !Contains(a, t) {
      var s := a + b;
      var i :| 0 <= i <= |s| - |t| && OccursAt(s, t, i);
      if i + |t| <= |a| {
        assert a[i..i + |t|] == s[i..i + |t|];
        assert OccursAt(a, t, i);
        assert false;
      } else if i >= |a| {
        assert b[i - |a|..i - |a| + |t|] == s[i..i + |t|];
        assert OccursAt(b, t, i - |a|);
      } else {
        assert false;
      }
    }
  }

  /**
   * None of the last `|t| - 1` positions of `x` can start `t`: each holds a
   * character other than `t`'s first, or is followed in `x` by one other
   * than `t`'s second.
   */
  ghost predicate HeadFree(x: string, t: string) {
    |t| > 1 &&
    forall i :: 0 <= i < |x| && |x| - i < |t| ==> x[i] != t[0] || (i + 1 < |x| && x[i + 1] != t[1])
  }

  lemma NoStraddleByHead(a: string, b: string, t: string)
    requires HeadFree(a, t)
    ensures NoStraddle(a, b, t)
  {
    forall i | 0 <= i < |a| < i + |t|
      ensures !OccursAt(a + b, t, i)
    {
      assert (a + b)[i] == a[i];
      assert a[i] != t[0] || (i + 1 < |a| && a[i + 1] != t[1]);
      if i + |t| <= |a + b| {
        var w := (a + b)[i..i + |t|];
        assert w[0] == a[i];
        if i + 1 < |a| {
          assert w[1] == a[i + 1];
        }
      }
    }
  }

  /**
   * `t` does not end with the first character of `y`, and no position of `t`
   * after the first holds the first two characters of `y`.
   */
  ghost predicate LeadFree(y: string, t: string) {
    |y| >= 2 && |t| > 0 && t[|t| - 1] != y[0] &&
    forall k :: 0 < k < |t| - 1 ==> !(t[k] == y[0] && t[k + 1] == y[1])
  }

  lemma NoStraddleByLead(a: string, b: string, t: string)
    requires LeadFree(b, t)
    ensures NoStraddle(a, b, t)
  {
    forall i | 0 <= i < |a| < i + |t|
      ensures !OccursAt(a + b, t, i)
    {
      var k := |a| - i;
      if i + |t| <= |a + b| {
        var w := (a + b)[i..i + |t|];
        assert w[k] == b[0];
        if k < |t| - 1 {
          assert w[k + 1] == b[1];
        }
      }
    }
  }

  /** A prefix that neither contains `t` nor can begin an occurrence of it leaves `includes(t)` to the rest. */
  lemma InertPrefix(x: string, m: string, t: string)
    requires HeadFree(x, t) && !Contains(x, t)
    ensures Contains(x + m, t) <==> Contains(m, t)
  {
    NoStraddleByHead(x, m, t);
    ContainsConcat(x, m, t);
  }

  /** A suffix that neither contains `t` nor can end an occurrence of it leaves `includes(t)` to the rest. */
  lemma InertSuffix(m: string, y: string, t: string)
    requires LeadFree(y, t) && !Contains(y, t)
    ensures Contains(m + y, t) <==> Contains(m, t)
  {
    NoStraddleByLead(m, y, t);
    ContainsConcat(m, y, t);
  }

  /** `x` is head-free for `t` when a tail of it at least `|t| - 1` long lacks `t`'s first character. */
  lemma HeadFreeBySuffix(x: string, k: nat, t: string)
    requires |t| > 1 && k <= |x| && |x| - k >= |t| - 1
    requires t[0] !in x[k..]
    ensures HeadFree(x, t)
  {
    forall i | 0 <= i < |x| && |x| - i < |t|
      ensures x[i] != t[0]
    {
      assert x[i] == x[k..][i - k];
    }
  }

  /**
   * `x` is head-free for `t` when a tail of it at least `|t| - 1` long lacks
   * `t`'s second character and `x` does not end with `t`'s first.
   */
  lemma HeadFreeBySecond(x: string, k: nat, t: string)
    requires |t| > 1 && k < |x| && |x| - k >= |t| - 1
    requires t[1] !in x[k..] && x[|x| - 1] != t[0]
    ensures HeadFree(x, t)
  {
    forall i | 0 <= i < |x| && |x| - i < |t|
      ensures x[i] != t[0] || (i + 1 < |x| && x[i + 1] != t[1])
    {
      if i + 1 < |x| {
        assert x[i + 1] == x[k..][i + 1 - k];
      }
    }
  }

  /** `y` is lead-free for `t` when `t` does not end with `y`'s first character and lacks its second. */
  lemma LeadFreeBySecond(y: string, t: string)
    requires |y| >= 2 && |t| > 0 && t[|t| - 1] != y[0] && y[1] !in t
    ensures LeadFree(y, t)
  {
    forall k | 0 < k < |t| - 1
      ensures !(t[k] == y[0] && t[k + 1] == y[1])
    {
      assert t[k + 1] in t;
    }
  }

  // ---------------------------------------------------------------------------
  // split

  /** `s.split(sep)` for a one-character separator: the maximal separator-free pieces, in order. */
  function Split(s: string, sep: char): (parts: seq<string>)
    ensures |parts| >= 1
    decreases |s|
  {
    if |s| == 0 then [""]
    else
      var rest := Split(s[1..], sep);
      if s[0] == sep then [""] + rest
      else [[s[0]] + rest[0]] + rest[1..]
  }

  /** `parts.join(sep)`, the inverse of `Split`. */
  function Join(parts: seq<string>, sep: char): (s: string)
    requires |parts| >= 1
    decreases |parts|
  {
    if |parts| == 1 then parts[0] else parts[0] + [sep] + Join(parts[1..], sep)
  }

  /** The position of the first `c` in `s`. */
  function IndexOf(s: string, c: char): (i: nat)
    requires c in s
    ensures i < |s| && s[i] == c && c !in s[..i]
  {
    if s[0] == c then 0
    else
      var j := IndexOf(s[1..], c);
      assert s[..j + 1] == [s[0]] + s[1..][..j];
      j + 1
  }

  /** No piece of a split holds the separator. */
  lemma {:induction false} SplitPiecesFree(s: string, sep: char)
    ensures forall p :: p in Split(s, sep) ==> sep !in p
    decreases |s|
  {
    if |s| > 0 {
      SplitPiecesFree(s[1..], sep);
    }
  }

  /** Joining the pieces of a split gives back the string. */
  lemma {:induction false} SplitJoin(s: string, sep: char)
    ensures Join(Split(s, sep), sep) == s
    decreases |s|
  {
    if |s| > 0 {
      var rest := Split(s[1..], sep);
      SplitJoin(s[1..], sep);
      if s[0] == sep {
        assert Split(s, sep)[1..] == rest;
        assert s == [s[0]] + s[1..];
      } else {
        var parts := Split(s, sep);
        if |rest| == 1 {
          assert s == [s[0]] + rest[0];
        } else {
          assert parts[1..] == rest[1..];
          assert s == [s[0]] + (rest[0] + [sep] + Join(rest[1..], sep));
        }
      }
    }
  }

  /** A string without the separator splits into itself. */
  lemma {:induction false} SplitWithoutSeparator(s: string, sep: char)
    requires sep !in s
    ensures Split(s, sep) == [s]
    decreases |s|
  {
    if |s| > 0 {
      assert sep !in s[1..];
      SplitWithoutSeparator(s[1..], sep);
      assert s == [s[0]] + s[1..];
    }
  }

  /** Splitting at the first separator: the piece before it, then the split of the rest. */
  lemma {:induction false} SplitAtFirst(a: string, b: string, sep: char)
    requires sep !in a
    ensures Split(a + [sep] + b, sep) == [a] + Split(b, sep)
    decreases |a|
  {
    var s := a + [sep] + b;
    if |a| == 0 {
      assert s[1..] == b;
    } else {
      assert s[1..] == a[1..] + [sep] + b;
      assert sep !in a[1..];
      SplitAtFirst(a[1..], b, sep);
      assert [a[0]] + a[1..] == a;
    }
  }

  /** The first piece of a split is a separator-free prefix, ended by the end of the string or by a separator. */
  lemma {:induction false} SplitFirstPiece(s: string, sep: char)
    ensures var p := Split(s, sep)[0];
      sep !in p && StartsWith(s, p) && (|p| == |s| || s[|p|] == sep)
    decreases |s|
  {
    SplitPiecesFree(s, sep);
    if |s| > 0 && s[0] != sep {
      SplitFirstPiece(s[1..], sep);
      var q := Split(s[1..], sep)[0];
      assert Split(s, sep)[0] == [s[0]] + q;
      assert s[..|q| + 1] == [s[0]] + s[1..][..|q|];
    }
  }

  /**
   * `r` is what follows the first separator of `s`, up to the next separator
   * or the end.
   */
  ghost predicate FollowsFirstSeparator(s: string, sep: char, r: string) {
    exists i :: 0 <= i < |s| && s[i] == sep && sep !in s[..i] &&
      StartsWith(s[i + 1..], r) && (i + 1 + |r| == |s| || s[i + 1 + |r|] == sep)
  }

  /** `s.split(sep)[1]` when `s` holds `sep`: the piece between the first separator and the next one or the end. */
  lemma SplitSecondPiece(s: string, sep: char)
    requires sep in s
    ensures |Split(s, sep)| >= 2
    ensures sep !in Split(s, sep)[1]
    ensures FollowsFirstSeparator(s, sep, Split(s, sep)[1])
  {
    var i := IndexOf(s, sep);
    var head, rest := s[..i], s[i + 1..];
    assert s == head + [sep] + rest;
    SplitAtFirst(head, rest, sep);
    SplitSecondPieceAt(s, sep, i);
  }

  lemma SplitSecondPieceAt(s: string, sep: char, i: nat)
    requires i < |s| && s[i] == sep && sep !in s[..i]
    requires Split(s, sep) == [s[..i]] + Split(s[i + 1..], sep)
    ensures sep !in Split(s, sep)[1]
    ensures FollowsFirstSeparator(s, sep, Split(s, sep)[1])
  {
    var rest := s[i + 1..];
    SplitFirstPiece(rest, sep);
    assert Split(s, sep)[1] == Split(rest, sep)[0];
  }

  // ---------------------------------------------------------------------------
  // trim

  /** ECMAScript WhiteSpace and LineTerminator code points, the set `String.prototype.trim` removes. */
  predicate IsJsWhitespace(c: char) {
    var n := c as int;
    n == 0x09 || n == 0x0A || n == 0x0B || n == 0x0C || n == 0x0D || n == 0x20 ||
    n == 0xA0 || n == 0x1680 || (0x2000 <= n <= 0x200A) || n == 0x2028 || n == 0x2029 ||
    n == 0x202F || n == 0x205F || n == 0x3000 || n == 0xFEFF
  }

  /** Every character of `s` is whitespace. */
  predicate AllWhitespace(s: string) {
    forall i :: 0 <= i < |s| ==> IsJsWhitespace(s[i])
  }

  /** Removes leading whitespace: the result is the suffix of `s` after its longest whitespace prefix. */
  function TrimStart(s: string): (r: string)
    ensures |r| <= |s| && r == s[|s| - |r|..]
    ensures AllWhitespace(s[..|s| - |r|])
    ensures r == "" || !IsJsWhitespace(r[0])
    decreases |s|
  {
    if |s| > 0 && IsJsWhitespace(s[0]) then
      var r := TrimStart(s[1..]);
      assert s[..|s| - |r|] == [s[0]] + s[1..][..|s| - 1 - |r|];
      r
    else s
  }

  /** Removes trailing whitespace: the result is the prefix of `s` before its longest whitespace suffix. */
  function TrimEnd(s: string): (r: string)
    ensures |r| <= |s| && r == s[..|r|]
    ensures AllWhitespace(s[|r|..])
    ensures r == "" || !IsJsWhitespace(r[|r| - 1])
    decreases |s|
  {
    if |s| > 0 && IsJsWhitespace(s[|s| - 1]) then
      var t := s[..|s| - 1];
      var r := TrimEnd(t);
      assert r == s[..|r|] by {
        assert t[..|r|] == s[..|r|];
      }
      assert s[|r|..] == t[|r|..] + [s[|s| - 1]];
      assert AllWhitespace(s[|r|..]) by {
        forall i | 0 <= i < |s| - |r|
          ensures IsJsWhitespace(s[|r|..][i])
        {
          if i < |t| - |r| {
            assert s[|r|..][i] == t[|r|..][i];
          }
        }
      }
      r
    else s
  }

  /**
   * `s.trim()`: `s` without a whitespace prefix and a whitespace suffix, and
   * empty or neither starting nor ending in whitespace.
   */
  function Trim(s: string): (r: string)
    ensures var k := |s| - |TrimStart(s)|;
      && 0 <= k <= |s| - |r| && r == s[k..k + |r|]
      && AllWhitespace(s[..k]) && AllWhitespace(s[k + |r|..])
    ensures r == "" || (!IsJsWhitespace(r[0]) && !IsJsWhitespace(r[|r| - 1]))
  {
    var u := TrimStart(s);
    var r := TrimEnd(u);
    TrimPieces(s, u, r);
    r
  }

  /** Trimming the start and then the end cuts `s` into whitespace, `r` and whitespace. */
  lemma TrimPieces(s: string, u: string, r: string)
    requires |u| <= |s| && u == s[|s| - |u|..]
    requires |r| <= |u| && r == u[..|r|]
    requires r == "" || !IsJsWhitespace(r[|r| - 1])
    requires u == "" || !IsJsWhitespace(u[0])
    requires AllWhitespace(s[..|s| - |u|]) && AllWhitespace(u[|r|..])
    ensures var k := |s| - |u|;
      && 0 <= k <= |s| - |r| && r == s[k..k + |r|]
      && AllWhitespace(s[..k]) && AllWhitespace(s[k + |r|..])
    ensures r == "" || (!IsJsWhitespace(r[0]) && !IsJsWhitespace(r[|r| - 1]))
  {
    var k := |s| - |u|;
    assert s[k..k + |r|] == u[..|r|];
    assert s[k + |r|..] == u[|r|..];
    if r != "" {
      assert r[0] == u[0];
    }
  }

  /** `s.trim() === ''` exactly when `s` is empty or made only of whitespace. */
  lemma TrimEmptyIffBlank(s: string)
    ensures Trim(s) == "" <==> AllWhitespace(s)
  {
    var u := TrimStart(s);
    if Trim(s) == "" {
      assert AllWhitespace(u[0..]);
      assert u == "";
      assert s[..|s| - |u|] == s;
    }
  }

  // ---------------------------------------------------------------------------
  // numbers in template literals

  predicate IsDigit(c: char) {
    '0' <= c <= '9'
  }

  function DigitChar(d: nat): (c: char)
    requires d < 10
    ensures IsDigit(c) && c as int - '0' as int == d
  {
    ['0', '1', '2', '3', '4', '5', '6', '7', '8', '9'][d]
  }

  /** `${n}` for a non-negative integer `n`: its base-ten digits, most significant first. */
  function DecimalString(n: nat): (s: string)
    ensures |s| >= 1
    ensures forall i :: 0 <= i < |s| ==> IsDigit(s[i])
    ensures |s| > 1 ==> s[0] != '0'
  {
    if n < 10 then [DigitChar(n)] else DecimalString(n / 10) + [DigitChar(n % 10)]
  }

  function DigitValue(c: char): (d: nat)
    requires IsDigit(c)
    ensures d < 10
  {
    c as int - '0' as int
  }

  /** The value of a string of decimal digits. */
  function DecimalValue(s: string): nat
    requires forall i :: 0 <= i < |s| ==> IsDigit(s[i])
  {
    if |s| == 0 then 0 else DecimalValue(s[..|s| - 1]) * 10 + DigitValue(s[|s| - 1])
  }

  /** The decimal rendering of a number reads back as that number. */
  lemma {:induction false} DecimalRoundTrip(n: nat)
    ensures DecimalValue(DecimalString(n)) == n
  {
    if n >= 10 {
      DecimalRoundTrip(n / 10);
      var s := DecimalString(n);
      assert s[..|s| - 1] == DecimalString(n / 10);
    }
  }
}
