/** The handful of Python string operations the OAuth code is written with:
    partition, rpartition, startswith, ASCII lower-casing and decimal integers. */
module Text {
  import opened Wrappers

  predicate StartsWith(s: string, prefix: string) {
    prefix <= s
  }

  /** The first index from `n` on that holds `c`, or the length. */
  function IndexFrom(s: string, c: char, n: nat): (i: nat)
    requires n <= |s|
    ensures n <= i <= |s|
    ensures forall k | n <= k < i :: s[k] != c
    ensures i < |s| ==> s[i] == c
    decreases |s| - n
  {
    if n == |s| || s[n] == c then n else IndexFrom(s, c, n + 1)
  }

  function IndexOf(s: string, c: char): nat { IndexFrom(s, c, 0) }

  /** The last index below `n` that holds `c`, or -1. */
  function LastBefore(s: string, c: char, n: nat): (i: int)
    requires n <= |s|
    ensures -1 <= i < n
    ensures forall k | i < k < n :: s[k] != c
    ensures 0 <= i ==> s[i] == c
  {
    if n == 0 then -1 else if s[n - 1] == c then n - 1 else LastBefore(s, c, n - 1)
  }

  function LastIndexOf(s: string, c: char): int { LastBefore(s, c, |s|) }

  datatype Cut = Cut(head: string, found: bool, tail: string)

  /** str.partition: split at the first separator. */
  function Partition(s: string, c: char): Cut {
    var i := IndexOf(s, c);
    if i == |s| then Cut(s, false, "") else Cut(s[..i], true, s[i + 1..])
  }

  /** str.rpartition: split at the last separator. */
  function RPartition(s: string, c: char): Cut {
    var i := LastIndexOf(s, c);
    if i < 0 then Cut("", false, s) else Cut(s[..i], true, s[i + 1..])
  }

  lemma PartitionSplits(s: string, c: char, t: string)
    requires c !in s
    ensures Partition(s, c) == Cut(s, false, "")
    ensures Partition(s + [c] + t, c) == Cut(s, true, t)
  {
    var whole := s + [c] + t;
    assert forall k | 0 <= k < |s| :: whole[k] == s[k];
    assert whole[|s|] == c;
    assert IndexOf(whole, c) == |s|;
    assert whole[..|s|] == s && whole[|s| + 1..] == t;
  }

  lemma RPartitionSplits(s: string, c: char, t: string)
    requires c !in t
    ensures RPartition(t, c) == Cut("", false, t)
    ensures RPartition(s + [c] + t, c) == Cut(s, true, t)
  {
    var whole := s + [c] + t;
    assert forall k | |s| < k < |whole| :: whole[k] == t[k - |s| - 1];
    assert whole[|s|] == c;
    assert LastIndexOf(whole, c) == |s|;
    assert whole[..|s|] == s && whole[|s| + 1..] == t;
  }

  function LowerChar(c: char): char {
    if 'A' <= c <= 'Z' then (c as int + 32) as char else c
  }

  /** str.lower on the ASCII letters, the only letters an authority may hold. */
  function Lower(s: string): (r: string)
    ensures |r| == |s|
    ensures forall i | 0 <= i < |s| :: r[i] == LowerChar(s[i])
  {
    seq(|s|, i requires 0 <= i < |s| => LowerChar(s[i]))
  }

  lemma LowersLetters(c: char, i: nat)
    requires i < 26
    ensures LowerChar("ABCDEFGHIJKLMNOPQRSTUVWXYZ"[i]) == "abcdefghijklmnopqrstuvwxyz"[i]
    ensures c < 'A' || c > 'Z' ==> LowerChar(c) == c
  {
  }

  lemma LowerIdempotent(s: string)
    ensures Lower(Lower(s)) == Lower(s)
  {
  }

  predicate IsDigit(c: char) { '0' <= c <= '9' }

  predicate AllDigits(s: string) {
    s == "" || (IsDigit(s[|s| - 1]) && AllDigits(s[..|s| - 1]))
  }

  function DigitValue(c: char): nat
    requires IsDigit(c)
  {
    c as int - '0' as int
  }

  /** int() of a string of ASCII digits. */
  function DecimalValue(s: string): nat
    requires AllDigits(s)
  {
    if s == "" then 0 else DecimalValue(s[..|s| - 1]) * 10 + DigitValue(s[|s| - 1])
  }

  /** str() of a natural number. */
  function Decimal(n: nat): (s: string)
    ensures s != "" && AllDigits(s)
  {
    var last := [('0' as int + n % 10) as char];
    if n < 10 then last
    else
      var s := Decimal(n / 10) + last;
      assert s[..|s| - 1] == Decimal(n / 10);
      s
  }

  lemma {:induction false} DecimalRoundTrip(n: nat)
    ensures DecimalValue(Decimal(n)) == n
  {
    var s := Decimal(n);
    if n < 10 {
      assert s[..|s| - 1] == "";
    } else {
      DecimalRoundTrip(n / 10);
      assert s[..|s| - 1] == Decimal(n / 10);
    }
  }

  lemma {:induction false} DigitsOnly(s: string, c: char)
    requires AllDigits(s) && c in s
    ensures IsDigit(c)
  {
    if c != s[|s| - 1] {
      DigitsOnly(s[..|s| - 1], c);
    }
  }

  /** The ASCII characters str.strip removes. */
  predicate IsSpace(c: char) { c == ' ' || '\t' <= c <= '\r' || '\U{1c}' <= c <= '\U{1f}' }

  /** Nothing is left after str.strip. */
  predicate Blank(s: string) { s == "" || (IsSpace(s[0]) && Blank(s[1..])) }

  /** The characters str.isspace holds of in ASCII, and nothing else. */
  lemma {:induction false} BlankExactly(s: string)
    ensures Blank(s) <==> forall k :: 0 <= k < |s| ==> 9 <= s[k] as int <= 13 || 28 <= s[k] as int <= 32
  {
    if s != "" {
      BlankExactly(s[1..]);
      assert forall k :: 0 < k < |s| ==> s[k] == s[1..][k - 1];
    }
  }
}
