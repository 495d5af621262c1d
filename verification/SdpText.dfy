/** The string operations that the SDP code uses: decimal numbers, substring search, and the
    splitting helpers of rtc_base with the contracts the program relies on. */
module SdpText {
  import opened Wrappers
  import opened Bytes

  // ------------------------------------------------------------------ searching

  // std::string::find(p) != npos
  predicate Contains(s: string, p: string) { exists i :: 0 <= i <= |s| && p <= s[i..] }

  // Position of the first c at or after i, or |s|.
  function IndexFrom(s: string, c: char, i: nat): (k: nat)
    requires i <= |s|
    ensures i <= k <= |s| && (k < |s| ==> s[k] == c)
    ensures forall j :: i <= j < k ==> s[j] != c
    decreases |s| - i
  {
    if i == |s| || s[i] == c then i else IndexFrom(s, c, i + 1)
  }

  predicate Free(s: string, c: char) { forall i :: 0 <= i < |s| ==> s[i] != c }

  /** Every rule of the parser is a search for a pattern of the form ?=...; in a line whose only
      '=' is its second character such a pattern is found exactly if it is a prefix. */
  lemma FoundOnlyAtStart(s: string, p: string)
    requires |s| >= 2 && s[1] == '=' && s[0] != '=' && Free(s[2..], '=')
    requires |p| >= 2 && p[1] == '='
    ensures Contains(s, p) <==> p <= s
  {
    if Contains(s, p) {
      var i :| 0 <= i <= |s| && p <= s[i..];
      assert s[i + 1] == s[i..][1] == p[1];
      assert forall k :: 2 <= k < |s| ==> s[k] == s[2..][k - 2];
      assert i == 0 && s[0..] == s;
    }
    if p <= s {
      assert s[0..] == s;
    }
  }

  /** A pattern without the delimiter is found in a joined string exactly if it is found in a piece. */
  lemma FoundInAPiece(a: string, c: char, b: string, p: string)
    requires Free(p, c) && p != ""
    ensures Contains(a + [c] + b, p) <==> Contains(a, p) || Contains(b, p)
  {
    var s := a + [c] + b;
    if Contains(s, p) {
      var i :| 0 <= i <= |s| && p <= s[i..];
      SplitFound(a, c, b, p, i);
    }
    if Contains(a, p) {
      var i :| 0 <= i <= |a| && p <= a[i..];
      assert s[i..] == a[i..] + ([c] + b);
    }
    if Contains(b, p) {
      var i :| 0 <= i <= |b| && p <= b[i..];
      assert s[|a| + 1 + i..] == b[i..];
    }
  }

  lemma SplitFound(a: string, c: char, b: string, p: string, i: nat)
    requires Free(p, c) && p != "" && i <= |a + [c] + b| && p <= (a + [c] + b)[i..]
    ensures Contains(a, p) || Contains(b, p)
  {
    var s := a + [c] + b;
    assert forall k :: 0 <= k < |p| ==> p[k] == s[i..][k] == s[i + k];
    if i > |a| {
      assert s[i..] == b[i - |a| - 1..];
    } else {
      assert forall j :: i <= j < i + |p| ==> s[j] == s[i..][j - i] == p[j - i] != c;
      assert s[|a|] == c;
      assert forall k :: 0 <= k < |p| ==> p[k] == a[i..][k];
      assert p <= a[i..];
    }
  }

  /** Likewise a pattern ?=...:... in a string whose head has one '=', as second character, and whose tail
      has no ':'. */
  lemma FoundBeforeColon(l: string, v: string, p: string, k: nat)
    requires |l| >= 2 && l[1] == '=' && l[0] != '=' && Free(l[2..], '=') && Free(v, ':')
    requires 2 <= k < |p| && p[1] == '=' && p[k] == ':'
    ensures Contains(l + [':'] + v, p) <==> p <= l + [':'] + v
  {
    var s := l + [':'] + v;
    if Contains(s, p) {
      var i :| 0 <= i <= |s| && p <= s[i..];
      assert s[i + 1] == s[i..][1] == '=';
      assert s[i + k] == s[i..][k] == ':';
      assert forall j :: 2 <= j < |l| ==> s[j] == l[j] == l[2..][j - 2];
      assert forall j :: |l| < j < |s| ==> s[j] == v[j - |l| - 1];
      assert i == 0 && s[0..] == s;
    }
    if p <= s {
      assert s[0..] == s;
    }
  }

  // ------------------------------------------------------------------ splitting

  // rtc::split: the pieces between delimiters, empty ones included.
  function Split(s: string, c: char): (r: seq<string>)
    ensures |r| >= 1
    decreases |s|
  {
    var k := IndexFrom(s, c, 0);
    if k == |s| then [s] else [s[..k]] + Split(s[k + 1..], c)
  }

  // rtc::tokenize: the same without the empty pieces.
  function Tokenize(s: string, c: char): seq<string>
    decreases |s|
  {
    var k := IndexFrom(s, c, 0);
    if k == |s| then NonEmpty(s) else NonEmpty(s[..k]) + Tokenize(s[k + 1..], c)
  }

  function NonEmpty(s: string): seq<string> { if s == "" then [] else [s] }

  function SkipAll(s: string, c: char): (r: string)
    ensures |r| <= |s|
  {
    if s != "" && s[0] == c then SkipAll(s[1..], c) else s
  }

  // rtc::tokenize_first: up to the first run of delimiters, and after it.
  function TokenizeFirst(s: string, c: char): Option<(string, string)> {
    var k := IndexFrom(s, c, 0);
    if k == |s| then None else Some((s[..k], SkipAll(s[k + 1..], c)))
  }

  lemma IndexAt(a: string, c: char, b: string)
    requires Free(a, c)
    ensures IndexFrom(a + [c] + b, c, 0) == |a|
  {
    var s := a + [c] + b;
    assert forall j :: 0 <= j < |a| ==> s[j] == a[j];
    assert s[|a|] == c;
  }

  lemma IndexNone(a: string, c: char)
    requires Free(a, c)
    ensures IndexFrom(a, c, 0) == |a|
  {
  }

  lemma SplitFirst(a: string, c: char, b: string)
    requires Free(a, c)
    ensures Split(a + [c] + b, c) == [a] + Split(b, c)
    ensures Tokenize(a + [c] + b, c) == NonEmpty(a) + Tokenize(b, c)
  {
    var s := a + [c] + b;
    IndexAt(a, c, b);
    assert s[..|a|] == a && s[|a| + 1..] == b;
  }

  lemma SplitLast(a: string, c: char)
    requires Free(a, c)
    ensures Split(a, c) == [a] && Tokenize(a, c) == NonEmpty(a)
  {
    IndexNone(a, c);
  }

  lemma TokenizeFirstAt(a: string, c: char, b: string)
    requires Free(a, c) && (b != "" ==> b[0] != c)
    ensures TokenizeFirst(a + [c] + b, c) == Some((a, b))
  {
    var s := a + [c] + b;
    IndexAt(a, c, b);
    assert s[..|a|] == a && s[|a| + 1..] == b;
  }

  // ------------------------------------------------------------------- numbers

  predicate IsDigit(c: char) { '0' <= c <= '9' }

  function Digit(d: nat): char
    requires d < 10
  {
    '0' + d as char
  }

  // operator<< for an unsigned number.
  function Decimal(n: nat): (s: string)
    ensures |s| > 0 && forall i :: 0 <= i < |s| ==> IsDigit(s[i])
  {
    if n < 10 then [Digit(n)] else Decimal(n / 10) + [Digit(n % 10)]
  }

  function DigitsValue(s: string): nat
    requires forall i :: 0 <= i < |s| ==> IsDigit(s[i])
  {
    if s == "" then 0
    else
      assert IsDigit(s[|s| - 1]);
      10 * DigitsValue(s[..|s| - 1]) + (s[|s| - 1] as int - '0' as int)
  }

  // rtc::FromString<uint32_t> on the inputs that matter here: digits, in range.
  function FromString(s: string): Option<U32> {
    if s != "" && (forall i :: 0 <= i < |s| ==> IsDigit(s[i])) && DigitsValue(s) < 0x1_0000_0000
    then Some(DigitsValue(s)) else None
  }

  lemma {:induction false} DecimalValue(n: nat)
    ensures DigitsValue(Decimal(n)) == n
  {
    if n < 10 {
      assert DigitsValue("") == 0;
      assert [Digit(n)][..0] == "";
    } else {
      var s := Decimal(n);
      assert s[..|s| - 1] == Decimal(n / 10);
      DecimalValue(n / 10);
    }
  }

  lemma FromDecimal(n: U32)
    ensures FromString(Decimal(n)) == Some(n)
  {
    DecimalValue(n);
  }

  lemma DecimalFree(n: nat, c: char)
    requires !IsDigit(c)
    ensures Free(Decimal(n), c)
  {
  }

  lemma SixDigits(n: nat)
    ensures |Decimal(n)| <= 6 <==> n < 1_000_000
  {
    assert Pow10(3) == 1000;
    assert Pow10(6) == 1000 * Pow10(3);
    MoreDigits(n, 6, 1_000_000);
  }

  // n has k digits or less exactly if it is below ten to the k.
  lemma {:induction false} MoreDigits(n: nat, k: nat, power: nat)
    requires k > 0 && power == Pow10(k)
    ensures |Decimal(n)| <= k <==> n < power
    decreases k
  {
    assert Pow10(1) == 10;
    if k > 1 && n >= 10 {
      MoreDigits(n / 10, k - 1, Pow10(k - 1));
    }
  }

  function Pow10(k: nat): (p: nat)
    ensures p > 0
  {
    if k == 0 then 1 else 10 * Pow10(k - 1)
  }
}
