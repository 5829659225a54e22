/** The Python string built-ins the settings code relies on: `str.isspace`,
    `str.strip()`, `str.split(sep)`, `str.partition(sep)`, `sep.join(parts)`,
    truthiness of an `Optional[str]`, `x or y`, and the decimal rendering of
    an `int` inside an f-string. */
module PyStr {
  import opened Wrappers

  /** The characters for which Python's `str.isspace()` holds; `str.strip()`
      with no argument removes exactly these from both ends. */
  predicate IsSpace(c: char) {
    || ('\t' <= c <= '\r')
    || ('\U{1C}' <= c <= '\U{1F}')
    || c == ' '
    || c == '\U{85}'
    || c == '\U{A0}'
    || c == '\U{1680}'
    || ('\U{2000}' <= c <= '\U{200A}')
    || c == '\U{2028}'
    || c == '\U{2029}'
    || c == '\U{202F}'
    || c == '\U{205F}'
    || c == '\U{3000}'
  }

  predicate AllSpace(s: string) {
    forall i :: 0 <= i < |s| ==> IsSpace(s[i])
  }

  /** Only whitespace between positions `lo` and `hi` of `s`. */
  predicate SpacesBetween(s: string, lo: int, hi: int)
    requires 0 <= lo && hi <= |s|
  {
    forall m :: lo <= m < hi ==> IsSpace(s[m])
  }

  predicate Stripped(s: string) {
    s == [] || (!IsSpace(s[0]) && !IsSpace(s[|s| - 1]))
  }

  /** The first position at or after `i` that does not hold whitespace
      (`|s|` when there is none): the left scan of `strip()`. */
  function SkipSpaces(s: string, i: nat): (n: nat)
    requires i <= |s|
    ensures i <= n <= |s| && SpacesBetween(s, i, n)
    ensures n < |s| ==> !IsSpace(s[n])
    decreases |s| - i
  {
    if i < |s| && IsSpace(s[i]) then SkipSpaces(s, i + 1) else i
  }

  /** The position just after the last character before `j` that does not
      hold whitespace, but no lower than `lo`: the right scan of `strip()`. */
  function SkipSpacesBack(s: string, lo: nat, j: nat): (n: nat)
    requires lo <= j <= |s|
    ensures lo <= n <= j && SpacesBetween(s, n, j)
    ensures n > lo ==> !IsSpace(s[n - 1])
    decreases j
  {
    if j > lo && IsSpace(s[j - 1]) then SkipSpacesBack(s, lo, j - 1) else j
  }

  /** `s.strip()`: the slice `s[k..k + |r|]`, with only whitespace before
      and after it and none at its own ends. */
  function Strip(s: string): (r: string)
    ensures Stripped(r)
    ensures var k := SkipSpaces(s, 0);
      && k + |r| <= |s|
      && r == s[k..k + |r|]
      && SpacesBetween(s, 0, k)
      && SpacesBetween(s, k + |r|, |s|)
  {
    var i := SkipSpaces(s, 0);
    s[i..SkipSpacesBack(s, i, |s|)]
  }

  /** The left scan stops at the first position that is not whitespace. */
  lemma {:induction false} SkipSpacesAt(s: string, i: nat, n: nat)
    requires i <= n <= |s| && SpacesBetween(s, i, n)
    requires n < |s| ==> !IsSpace(s[n])
    ensures SkipSpaces(s, i) == n
    decreases n - i
  {
    if i < n {
      SkipSpacesAt(s, i + 1, n);
    }
  }

  lemma {:induction false} SkipSpacesBackAt(s: string, lo: nat, j: nat, n: nat)
    requires lo <= n <= j <= |s| && SpacesBetween(s, n, j)
    requires n > lo ==> !IsSpace(s[n - 1])
    ensures SkipSpacesBack(s, lo, j) == n
    decreases j - n
  {
    if n < j {
      SkipSpacesBackAt(s, lo, j - 1, n);
    }
  }

  /** `strip()` is determined by its specification: whatever whitespace
      surrounds a string that is already stripped, `strip()` returns it. */
  lemma StripUnique(a: string, m: string, b: string)
    requires AllSpace(a) && AllSpace(b) && Stripped(m)
    ensures Strip(a + m + b) == m
  {
    var s := a + m + b;
    if m == [] {
      assert SpacesBetween(s, 0, |s|);
      SkipSpacesAt(s, 0, |s|);
    } else {
      var k := |a|;
      var e := |a| + |m|;
      assert s[k] == m[0] && s[e - 1] == m[|m| - 1];
      assert SpacesBetween(s, 0, k);
      assert SpacesBetween(s, e, |s|);
      SkipSpacesAt(s, 0, k);
      SkipSpacesBackAt(s, k, |s|, e);
      assert s[k..e] == m;
    }
  }

  /** Stripping twice is stripping once. */
  lemma StripIdempotent(s: string)
    ensures Strip(Strip(s)) == Strip(s)
  {
    var r := Strip(s);
    assert [] + r + [] == r;
    StripUnique([], r, []);
  }

  /** `s.partition(c)` at the first occurrence of `c`; `None` when `c` does
      not occur (where Python would return `(s, "", "")`). */
  function Partition(s: string, c: char): (r: Option<(string, string)>)
    ensures r.Some? <==> c in s
    ensures r.Some? ==> s == r.value.0 + [c] + r.value.1 && c !in r.value.0
  {
    if s == [] then None
    else if s[0] == c then
      assert s == [] + [c] + s[1..];
      Some(([], s[1..]))
    else
      match Partition(s[1..], c)
      case None => None
      case Some((a, b)) =>
        assert s == [s[0]] + a + [c] + b by { assert s == [s[0]] + s[1..]; }
        Some(([s[0]] + a, b))
  }

  /** The first occurrence of `c` in `a + [c] + b` is the one after `a`
      when `a` does not contain `c`. */
  lemma PartitionAt(a: string, c: char, b: string)
    requires c !in a
    ensures Partition(a + [c] + b, c) == Some((a, b))
  {
    var s := a + [c] + b;
    assert s[|a|] == c;
    var a', b' := Partition(s, c).value.0, Partition(s, c).value.1;
    assert s == a' + [c] + b';
    assert s[|a'|] == c;
    assert forall k :: 0 <= k < |a| ==> s[k] == a[k];
    assert forall k :: 0 <= k < |a'| ==> s[k] == a'[k];
    assert |a'| == |a|;
    assert a' == s[..|a|] == a;
    assert b' == s[|a| + 1..] == b;
  }

  /** Concatenation regrouped (stated once, over bare strings, so that
      proofs about long URI texts can cite it instead of re-deriving it). */
  lemma ConcatAssoc(x: string, y: string, z: string)
    ensures x + y + z == x + (y + z)
  {
  }

  /** `sep.join(parts)`. */
  function Join(parts: seq<string>, sep: string): string
    decreases |parts|
  {
    if |parts| == 0 then []
    else if |parts| == 1 then parts[0]
    else parts[0] + sep + Join(parts[1..], sep)
  }

  /** `s.split(c)` for a one-character separator: one piece more than there
      are separators, no piece contains the separator, and joining the
      pieces with the separator gives back `s`. */
  function Split(s: string, c: char): (r: seq<string>)
    ensures |r| == multiset(s)[c] + 1
    ensures forall i :: 0 <= i < |r| ==> c !in r[i]
    ensures Join(r, [c]) == s
    decreases |s|
  {
    match Partition(s, c)
    case None => [s]
    case Some((a, b)) =>
      var rest := Split(b, c);
      var r := [a] + rest;
      assert r[1..] == rest;
      assert multiset(s) == multiset(a) + multiset([c]) + multiset(b);
      r
  }

  /** `split` undoes `join`: splitting a joined list of separator-free
      pieces gives back exactly those pieces. Together with the postcondition
      of `Split` this makes the two inverse to each other. */
  lemma {:induction false} SplitJoin(parts: seq<string>, c: char)
    requires |parts| >= 1
    requires forall i :: 0 <= i < |parts| ==> c !in parts[i]
    ensures Split(Join(parts, [c]), c) == parts
    decreases |parts|
  {
    if |parts| > 1 {
      var rest := Join(parts[1..], [c]);
      PartitionAt(parts[0], c, rest);
      SplitJoin(parts[1..], c);
      assert parts == [parts[0]] + parts[1..];
    }
  }

  /** The pieces after the first one each get `pad` in front. */
  function PadTail(parts: seq<string>, pad: string): (r: seq<string>)
    requires |parts| >= 1
    ensures |r| == |parts| && r[0] == parts[0]
    ensures forall i :: 1 <= i < |parts| ==> r[i] == pad + parts[i]
  {
    [parts[0]] + seq(|parts| - 1, i requires 0 <= i < |parts| - 1 => pad + parts[i + 1])
  }

  lemma {:induction false} JoinPadded(parts: seq<string>, c: char, pad: string)
    requires |parts| >= 1
    ensures Join(parts, [c] + pad) == Join(PadTail(parts, pad), [c])
    decreases |parts|
  {
    if |parts| > 1 {
      var p := PadTail(parts, pad);
      JoinPadded(parts[1..], c, pad);
      var q := PadTail(parts[1..], pad);
      assert p[1..] == [pad + q[0]] + q[1..];
      JoinHeadPrefix(q, pad, [c]);
    }
  }

  /** Putting `pad` in front of the first piece puts it in front of the join. */
  lemma JoinHeadPrefix(q: seq<string>, pad: string, sep: string)
    requires |q| >= 1
    ensures Join([pad + q[0]] + q[1..], sep) == pad + Join(q, sep)
  {
    var p := [pad + q[0]] + q[1..];
    if |q| > 1 {
      assert p[1..] == q[1..];
    }
  }

  lemma JoinCons(p: string, rest: seq<string>, sep: string)
    requires |rest| >= 1
    ensures Join([p] + rest, sep) == p + sep + Join(rest, sep)
  {
    assert ([p] + rest)[1..] == rest;
  }

  /** Splitting a text joined with `c` followed by whitespace padding, and
      stripping each piece, gives back the original stripped, `c`-free
      pieces. */
  lemma SplitStripJoin(parts: seq<string>, c: char, pad: string)
    requires |parts| >= 1 && !IsSpace(c) && AllSpace(pad)
    requires forall i :: 0 <= i < |parts| ==> c !in parts[i] && Stripped(parts[i])
    ensures var pieces := Split(Join(parts, [c] + pad), c);
      |pieces| == |parts| && forall i :: 0 <= i < |parts| ==> Strip(pieces[i]) == parts[i]
  {
    var padded := PadTail(parts, pad);
    JoinPadded(parts, c, pad);
    assert c !in pad;
    forall i | 0 <= i < |padded| ensures c !in padded[i] && Strip(padded[i]) == parts[i] {
      StripPadded(parts, pad, i);
    }
    SplitJoin(padded, c);
  }

  lemma StripPadded(parts: seq<string>, pad: string, i: nat)
    requires |parts| >= 1 && AllSpace(pad) && i < |parts| && Stripped(parts[i])
    ensures Strip(PadTail(parts, pad)[i]) == parts[i]
  {
    if i == 0 {
      assert [] + parts[0] + [] == parts[0];
      StripUnique([], parts[0], []);
    } else {
      assert pad + parts[i] + [] == pad + parts[i];
      StripUnique(pad, parts[i], []);
    }
  }

  /** Truthiness of an `Optional[str]`: `None` and `""` are false. */
  predicate Truthy(o: Option<string>) {
    o.Some? && o.value != ""
  }

  /** Python's `o or fallback` for an `Optional[str]` operand. */
  function Or(o: Option<string>, fallback: string): string {
    if Truthy(o) then o.value else fallback
  }

  predicate IsDigit(c: char) {
    '0' <= c <= '9'
  }

  function DigitChar(d: nat): (c: char)
    requires d < 10
  {
    ('0' as int + d) as char
  }

  function DigitValue(c: char): int {
    c as int - '0' as int
  }

  /** The decimal rendering of a natural number, as `str(n)` gives it:
      digits only, and a leading zero only for zero itself. */
  function NatToDecimal(n: nat): (r: string)
    ensures |r| >= 1
    ensures forall i :: 0 <= i < |r| ==> IsDigit(r[i])
    ensures r[0] == '0' <==> n == 0
    ensures n == 0 ==> r == "0"
  {
    if n < 10 then [DigitChar(n)]
    else NatToDecimal(n / 10) + [DigitChar(n % 10)]
  }

  /** `f"{n}"` for a Python `int`: a minus sign before the digits of a
      negative number, and no leading zero (so no `-0` and no `007`). */
  function IntToDecimal(n: int): (r: string)
    ensures |r| >= 1
    ensures forall i :: 0 <= i < |r| ==> IsDigit(r[i]) || (i == 0 && r[i] == '-')
    ensures r[0] == '-' <==> n < 0
    ensures r[0] == '0' ==> r == "0"
    ensures n < 0 ==> |r| >= 2 && r[1] != '0'
  {
    if n < 0 then "-" + NatToDecimal(-n) else NatToDecimal(n)
  }

  /** A rendered integer holds none of the characters that delimit the
      parts of a URI. */
  lemma DecimalHasNoDelimiters(n: int)
    ensures var r := IntToDecimal(n);
      ':' !in r && '@' !in r && '/' !in r && '?' !in r && '&' !in r && '#' !in r
  {
    var r := IntToDecimal(n);
    forall c | c in r ensures IsDigit(c) || c == '-' {
      var i :| 0 <= i < |r| && r[i] == c;
    }
  }

  /** Reading a run of decimal digits (`int(s)` on digits only). */
  function ParseDigits(s: string): int {
    if s == [] then 0 else 10 * ParseDigits(s[..|s| - 1]) + DigitValue(s[|s| - 1])
  }

  /** Reading an optionally signed decimal numeral. */
  function ParseDecimal(s: string): int {
    if s != [] && s[0] == '-' then -ParseDigits(s[1..]) else ParseDigits(s)
  }

  lemma {:induction false} ParseNatToDecimal(n: nat)
    ensures ParseDigits(NatToDecimal(n)) == n
  {
    if n >= 10 {
      var s := NatToDecimal(n);
      assert s[..|s| - 1] == NatToDecimal(n / 10);
      ParseNatToDecimal(n / 10);
    }
  }

  /** Rendering an integer in decimal loses nothing: reading it back gives
      the same integer, so distinct ports or database numbers give distinct
      text. */
  lemma ParseIntToDecimal(n: int)
    ensures ParseDecimal(IntToDecimal(n)) == n
  {
    if n < 0 {
      assert ("-" + NatToDecimal(-n))[1..] == NatToDecimal(-n);
      ParseNatToDecimal(-n);
    } else {
      ParseNatToDecimal(n);
    }
  }
}
