/** The text form of a cached counter: `expiry:value`, or `value` alone without an expiry
    (crates/cache/src/moka_backend.rs). */
module CacheText {
  import opened Basics

  const I64_MIN := -0x8000_0000_0000_0000
  const I64_MAX := 0x7FFF_FFFF_FFFF_FFFF

  predicate InI64(n: int) { I64_MIN <= n <= I64_MAX }

  predicate IsDigit(c: char) { '0' <= c <= '9' }

  predicate AllDigits(s: string) { forall k :: 0 <= k < |s| ==> IsDigit(s[k]) }

  function FormatNat(n: nat): (s: string)
    ensures s != [] && AllDigits(s)
  {
    if n < 10 then ['0' + n as char] else FormatNat(n / 10) + ['0' + (n % 10) as char]
  }

  function FormatInt(n: int): string {
    if n < 0 then "-" + FormatNat(-n) else FormatNat(n)
  }

  function DigitsValue(s: string): nat
    requires AllDigits(s)
  {
    if s == [] then 0 else 10 * DigitsValue(s[..|s| - 1]) + (s[|s| - 1] - '0') as nat
  }

  /** Parsing a 64-bit signed integer: an optional sign, at least one digit, nothing else, in range. */
  function ParseI64(s: string): Option<int> {
    var negative := s != [] && s[0] == '-';
    var digits := if negative || (s != [] && s[0] == '+') then s[1..] else s;
    if digits == [] || !AllDigits(digits) then None
    else
      var n: int := if negative then 0 - DigitsValue(digits) else DigitsValue(digits);
      if InI64(n) then Some(n) else None
  }

  /** The text before and after the first occurrence of `c`. */
  function SplitOnce(s: string, c: char): Option<(string, string)> {
    if s == [] then None
    else if s[0] == c then Some(("", s[1..]))
    else
      var rest := SplitOnce(s[1..], c);
      if rest.None? then None else Some(([s[0]] + rest.value.0, rest.value.1))
  }

  function ExtractValue(raw: string): Option<(int, string)> {
    var parts := SplitOnce(raw, ':');
    if parts.None? then None
    else
      var expiry := ParseI64(parts.value.0);
      if expiry.None? then None else Some((expiry.value, parts.value.1))
  }

  function EncodeEntry(value: string, expiry: Option<int>): string {
    if expiry.Some? then FormatInt(expiry.value) + ":" + value else value
  }

  lemma {:induction false} FormatNatParses(n: nat)
    ensures DigitsValue(FormatNat(n)) == n
  {
    if n >= 10 {
      FormatNatParses(n / 10);
      var s := FormatNat(n / 10) + ['0' + (n % 10) as char];
      assert s[..|s| - 1] == FormatNat(n / 10);
    }
  }

  lemma FormatIntParses(n: int)
    requires InI64(n)
    ensures ParseI64(FormatInt(n)) == Some(n)
    ensures forall k :: 0 <= k < |FormatInt(n)| ==> FormatInt(n)[k] != ':'
  {
    FormatNatParses(if n < 0 then -n else n);
  }

  lemma {:induction false} SplitAtFirst(before: string, c: char, after: string)
    requires forall k :: 0 <= k < |before| ==> before[k] != c
    ensures SplitOnce(before + [c] + after, c) == Some((before, after))
  {
    if before == [] {
      assert ([c] + after)[1..] == after;
      assert before + [c] + after == [c] + after;
    } else {
      SplitAtFirst(before[1..], c, after);
      assert (before + [c] + after)[1..] == before[1..] + [c] + after;
      assert [before[0]] + before[1..] == before;
    }
  }

  lemma {:induction false} NothingToSplit(s: string, c: char)
    requires forall k :: 0 <= k < |s| ==> s[k] != c
    ensures SplitOnce(s, c) == None
  {
    if s != [] { NothingToSplit(s[1..], c); }
  }

  /** Decoding an encoded entry gives back its expiry and its value, whatever the value contains. */
  lemma EntryRoundTrip(value: string, expiry: int)
    requires InI64(expiry)
    ensures ExtractValue(EncodeEntry(value, Some(expiry))) == Some((expiry, value))
  {
    FormatIntParses(expiry);
    SplitAtFirst(FormatInt(expiry), ':', value);
  }

  /** A number stored without an expiry is never mistaken for an entry with one. */
  lemma PlainNumberHasNoExpiry(n: int)
    requires InI64(n)
    ensures ExtractValue(EncodeEntry(FormatInt(n), None)) == None
    ensures ParseI64(EncodeEntry(FormatInt(n), None)) == Some(n)
  {
    FormatIntParses(n);
    NothingToSplit(FormatInt(n), ':');
  }
}
