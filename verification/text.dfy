/** The handful of Python `str` operations the program relies on, over
    `string` = `seq<char>`: prefix and suffix tests, substring search,
    `split`/`join` on one separator character, `strip`, `replace` and
    `str()` of an integer. */
module Text {

  predicate StartsWith(s: string, prefix: string) {
    |prefix| <= |s| && s[..|prefix|] == prefix
  }

  predicate EndsWith(s: string, suffix: string) {
    |suffix| <= |s| && s[|s| - |suffix|..] == suffix
  }

  /** Python's `t in s` for strings. */
  predicate Contains(s: string, t: string)
    decreases |s|
  {
    StartsWith(s, t) || (|s| > 0 && Contains(s[1..], t))
  }

  /** `t` occurs in `s` at position `i`. */
  predicate OccursAt(s: string, t: string, i: int) {
    0 <= i && i + |t| <= |s| && s[i..i + |t|] == t
  }

  /** `Contains` holds exactly when `t` occurs at some position of `s`. */
  lemma {:induction false} ContainsAt(s: string, t: string)
    ensures Contains(s, t) <==> exists i :: OccursAt(s, t, i)
    decreases |s|
  {
    if StartsWith(s, t) {
      assert OccursAt(s, t, 0);
    } else if |s| == 0 {
      assert !Contains(s, t);
    } else {
      ContainsAt(s[1..], t);
      if Contains(s[1..], t) {
        var i :| OccursAt(s[1..], t, i);
        assert s[i + 1..i + 1 + |t|] == s[1..][i..i + |t|];
        assert OccursAt(s, t, i + 1);
      } else {
        forall i | 0 <= i
          ensures !OccursAt(s, t, i)
        {
          if 1 <= i && i + |t| <= |s| {
            var u := s[1..];
            assert forall k :: i <= k < |s| ==> u[k - 1] == s[k];
            assert u[i - 1..i - 1 + |t|] == s[i..i + |t|];
            assert !OccursAt(u, t, i - 1);
          }
        }
      }
    }
  }

  /** Python's `sep.join(xs)` for a one-character separator. */
  function Join(xs: seq<string>, sep: char): string
    decreases |xs|
  {
    if |xs| == 0 then ""
    else if |xs| == 1 then xs[0]
    else xs[0] + [sep] + Join(xs[1..], sep)
  }

  /** Position of the first occurrence of `c` in `s`. */
  function IndexOf(s: string, c: char): (k: nat)
    requires c in s
    ensures k < |s| && s[k] == c
    ensures forall j :: 0 <= j < k ==> s[j] != c
  {
    if s[0] == c then 0 else 1 + IndexOf(s[1..], c)
  }

  /** Python's `s.split(sep)` for a one-character separator: never empty,
      no piece holds the separator, and joining the pieces gives `s` back. */
  function Split(s: string, sep: char): (r: seq<string>)
    ensures |r| >= 1
    ensures forall i :: 0 <= i < |r| ==> sep !in r[i]
    ensures Join(r, sep) == s
    decreases |s|
  {
    if sep !in s then [s]
    else
      var k := IndexOf(s, sep);
      assert s == s[..k] + [sep] + s[k + 1..];
      [s[..k]] + Split(s[k + 1..], sep)
  }

  /** Splitting at a first piece free of the separator. */
  lemma SplitCons(a: string, rest: string, sep: char)
    requires sep !in a
    ensures Split(a + [sep] + rest, sep) == [a] + Split(rest, sep)
  {
    var s := a + [sep] + rest;
    assert s[|a|] == sep;
    var k := IndexOf(s, sep);
    assert forall j :: 0 <= j < |a| ==> s[j] == a[j];
    assert k == |a|;
    assert s[..k] == a;
    assert s[k + 1..] == rest;
  }

  /** The other half of the round trip: splitting a join of separator-free
      pieces gives the pieces back. */
  lemma {:induction false} SplitJoin(xs: seq<string>, sep: char)
    requires |xs| >= 1
    requires forall i :: 0 <= i < |xs| ==> sep !in xs[i]
    ensures Split(Join(xs, sep), sep) == xs
    decreases |xs|
  {
    if |xs| > 1 {
      SplitJoin(xs[1..], sep);
      SplitCons(xs[0], Join(xs[1..], sep), sep);
      assert xs == [xs[0]] + xs[1..];
    }
  }

  /** Joining two non-empty lists is joining their joins. */
  lemma {:induction false} JoinAppend(xs: seq<string>, ys: seq<string>, sep: char)
    requires |xs| >= 1 && |ys| >= 1
    ensures Join(xs + ys, sep) == Join(xs, sep) + [sep] + Join(ys, sep)
    decreases |xs|
  {
    if |xs| == 1 {
      assert (xs + ys)[1..] == ys;
    } else {
      assert (xs + ys)[1..] == xs[1..] + ys;
      JoinAppend(xs[1..], ys, sep);
    }
  }

  /** Splitting two separator-free pieces joined by the separator. */
  lemma SplitPair(a: string, b: string, sep: char)
    requires sep !in a && sep !in b
    ensures Split(a + [sep] + b, sep) == [a, b]
  {
    assert [a, b][1..] == [b];
    assert Join([a, b], sep) == a + [sep] + b;
    SplitJoin([a, b], sep);
  }

  /** The last piece of a split holds what follows the last separator, and
      the earlier pieces joined back give what precedes it. */
  lemma {:induction false} SplitLast(s: string, sep: char)
    requires sep in s
    ensures |Split(s, sep)| >= 2
    ensures s == Join(Split(s, sep)[..|Split(s, sep)| - 1], sep) + [sep] + Split(s, sep)[|Split(s, sep)| - 1]
  {
    var r := Split(s, sep);
    var n := |r|;
    assert r == r[..n - 1] + [r[n - 1]];
    JoinAppend(r[..n - 1], [r[n - 1]], sep);
  }

  /** Python's `s.lstrip(c)` for one character. */
  function TrimLeft(s: string, c: char): (r: string)
    ensures |r| <= |s| && s[|s| - |r|..] == r
    ensures forall i :: 0 <= i < |s| - |r| ==> s[i] == c
    ensures |r| == 0 || r[0] != c
  {
    if |s| > 0 && s[0] == c then TrimLeft(s[1..], c) else s
  }

  /** Python's `s.rstrip(c)` for one character. */
  function TrimRight(s: string, c: char): (r: string)
    ensures |r| <= |s| && s[..|r|] == r
    ensures forall i :: |r| <= i < |s| ==> s[i] == c
    ensures |r| == 0 || r[|r| - 1] != c
  {
    if |s| > 0 && s[|s| - 1] == c then TrimRight(s[..|s| - 1], c) else s
  }

  /** `s` is `r` at position `i` with nothing but `c` around it. */
  predicate PaddedAt(s: string, r: string, c: char, i: int) {
    && OccursAt(s, r, i)
    && (forall j :: 0 <= j < i ==> s[j] == c)
    && (forall j :: i + |r| <= j < |s| ==> s[j] == c)
  }

  /** Trimming both sides leaves the middle of `s` with only `c` around it:
      `l` is `s` less a run of `c` on the left, `r` is `l` less a run on the
      right. */
  lemma TrimBoth(s: string, l: string, r: string, c: char)
    requires |l| <= |s| && s[|s| - |l|..] == l
    requires forall i :: 0 <= i < |s| - |l| ==> s[i] == c
    requires |r| <= |l| && l[..|r|] == r
    requires forall i :: |r| <= i < |l| ==> l[i] == c
    ensures PaddedAt(s, r, c, |s| - |l|)
  {
    var i := |s| - |l|;
    assert s[i..i + |r|] == l[..|r|];
    assert forall j :: i + |r| <= j < |s| ==> s[j] == l[j - i];
  }

  /** Python's `s.strip(c)` for one character: `s` is the result with a
      (possibly empty) run of `c` on each side, and the result neither starts
      nor ends with `c`. */
  function Strip(s: string, c: char): (r: string)
    ensures exists i :: PaddedAt(s, r, c, i)
    ensures |r| == 0 || (r[0] != c && r[|r| - 1] != c)
  {
    var l := TrimLeft(s, c);
    var r := TrimRight(l, c);
    TrimBoth(s, l, r, c);
    r
  }

  /** Stripping the quotes around a quote-free string gives it back. */
  lemma StripQuoted(r: string, c: char)
    requires c !in r
    ensures Strip([c] + r + [c], c) == r
  {
    var l := r + [c];
    assert ([c] + l)[1..] == l;
    assert TrimLeft([c] + l, c) == TrimLeft(l, c);
    if |r| > 0 {
      assert l[0] == r[0];
      assert TrimLeft(l, c) == l;
    } else {
      assert TrimLeft(l, c) == TrimLeft([], c);
    }
    assert l[..|l| - 1] == r;
    assert TrimRight(l, c) == TrimRight(r, c);
    assert [c] + r + [c] == [c] + l;
  }

  /** Python's `s.replace(pat, repl)`: every non-overlapping occurrence of
      `pat`, scanning left to right, is replaced. */
  function Replace(s: string, pat: string, repl: string): (r: string)
    requires |pat| > 0
    ensures !Contains(s, pat) ==> r == s
    decreases |s|
  {
    if |s| < |pat| then s
    else if s[..|pat|] == pat then repl + Replace(s[|pat|..], pat, repl)
    else [s[0]] + Replace(s[1..], pat, repl)
  }

  /** Replacing a string by itself changes nothing. */
  lemma {:induction false} ReplaceSelf(s: string, pat: string)
    requires |pat| > 0
    ensures Replace(s, pat, pat) == s
    decreases |s|
  {
    if |s| < |pat| {
    } else if s[..|pat|] == pat {
      ReplaceSelf(s[|pat|..], pat);
      assert s == s[..|pat|] + s[|pat|..];
    } else {
      ReplaceSelf(s[1..], pat);
      assert s == [s[0]] + s[1..];
    }
  }

  /** Dropping the first character of `a` keeps `pat` from starting
      anywhere in the rest of `a` followed by `pat`. */
  lemma NoEarlierOccurrence(a: string, pat: string)
    requires |a| > 0
    requires forall j :: 0 <= j < |a| ==> !OccursAt(a + pat, pat, j)
    ensures forall j :: 0 <= j < |a| - 1 ==> !OccursAt(a[1..] + pat, pat, j)
  {
    forall j | 0 <= j < |a| - 1
      ensures !OccursAt(a[1..] + pat, pat, j)
    {
      assert !OccursAt(a + pat, pat, j + 1);
      assert (a[1..] + pat)[j..j + |pat|] == (a + pat)[j + 1..j + 1 + |pat|];
    }
  }

  /** A scan that does not find `pat` at the front keeps the first
      character and goes on with the rest. */
  lemma ReplaceSkip(s: string, pat: string, repl: string)
    requires 0 < |pat| <= |s| && !OccursAt(s, pat, 0)
    ensures Replace(s, pat, repl) == [s[0]] + Replace(s[1..], pat, repl)
  {
  }

  /** The scan copies the text before the first occurrence of `pat`
      unchanged, puts `repl` in that occurrence's place and carries on
      after it. */
  lemma {:induction false} ReplaceAt(a: string, pat: string, b: string, repl: string)
    requires |pat| > 0
    requires forall j :: 0 <= j < |a| ==> !OccursAt(a + pat, pat, j)
    ensures Replace(a + pat + b, pat, repl) == a + repl + Replace(b, pat, repl)
    decreases |a|
  {
    var s := a + pat + b;
    if |a| == 0 {
      assert s[..|pat|] == pat && s[|pat|..] == b;
    } else {
      assert !OccursAt(s, pat, 0) by {
        assert !OccursAt(a + pat, pat, 0);
        assert s[..|pat|] == (a + pat)[..|pat|];
      }
      ReplaceSkip(s, pat, repl);
      assert s[1..] == a[1..] + pat + b;
      NoEarlierOccurrence(a, pat);
      ReplaceAt(a[1..], pat, b, repl);
      assert a == [a[0]] + a[1..];
    }
  }

  /** A single occurrence of `pat` is replaced by `repl` and nothing else
      changes. */
  lemma ReplaceOnce(a: string, pat: string, b: string, repl: string)
    requires |pat| > 0
    requires forall j :: 0 <= j < |a| ==> !OccursAt(a + pat, pat, j)
    requires !Contains(b, pat)
    ensures Replace(a + pat + b, pat, repl) == a + repl + b
  {
    ReplaceAt(a, pat, b, repl);
  }

  function DigitChar(d: nat): char
    requires d < 10
  {
    "0123456789"[d]
  }

  function DigitValue(ch: char): nat {
    if '0' <= ch <= '9' then (ch - '0') as nat else 0
  }

  /** Python's `str(n)` for a non-negative integer. */
  function NatToString(n: nat): (r: string)
    ensures |r| >= 1
    ensures forall i :: 0 <= i < |r| ==> '0' <= r[i] <= '9'
    ensures '.' !in r
    decreases n
  {
    if n < 10 then [DigitChar(n)] else NatToString(n / 10) + [DigitChar(n % 10)]
  }

  /** Reads a string of decimal digits back as a number. */
  function ParseNat(s: string): nat
    decreases |s|
  {
    if |s| == 0 then 0 else 10 * ParseNat(s[..|s| - 1]) + DigitValue(s[|s| - 1])
  }

  lemma {:induction false} ParseNatToString(n: nat)
    ensures ParseNat(NatToString(n)) == n
    decreases n
  {
    var r := NatToString(n);
    if n < 10 {
      assert DigitValue(DigitChar(n)) == n;
    } else {
      ParseNatToString(n / 10);
      assert r[..|r| - 1] == NatToString(n / 10);
      assert DigitValue(DigitChar(n % 10)) == n % 10;
    }
  }

  /** Distinct numbers have distinct decimal forms. */
  lemma NatToStringInjective(m: nat, n: nat)
    requires NatToString(m) == NatToString(n)
    ensures m == n
  {
    ParseNatToString(m);
    ParseNatToString(n);
  }

  /** Python's `str(i)` for any integer. */
  function IntToString(i: int): string {
    if i < 0 then "-" + NatToString(-i) else NatToString(i)
  }
}
