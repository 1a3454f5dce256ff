/** Names of snapshot directories and how a generation number is read back from a directory entry
    (`snapshot_dir_name` and `extract_snapshot_dir_number` in `src/persistence.rs`). */
module SnapshotNaming {
  import opened Wrappers

  const SNAPSHOT_PREFIX: string := "snapshot-"
  /** Width of the zero-padded generation number: `{:0>6}` when naming, `\d{6}` when matching. */
  const NUMBER_WIDTH: nat := 6
  /** Length of a match of `snapshot-\d{6}`. */
  const MATCH_LENGTH: nat := 15
  /** The largest `usize` on a 64-bit target. */
  const USIZE_MAX: nat := 0xFFFF_FFFF_FFFF_FFFF

  predicate IsDigit(c: char) { '0' <= c <= '9' }

  predicate AllDigits(s: string) { forall k :: 0 <= k < |s| ==> IsDigit(s[k]) }

  function DigitChar(d: nat): char
    requires d < 10
  {
    (('0' as int) + d) as char
  }

  function DigitValue(c: char): nat
    requires IsDigit(c)
  {
    c as int - '0' as int
  }

  function Pow10(k: nat): nat {
    if k == 0 then 1 else 10 * Pow10(k - 1)
  }

  /** The value of a string of decimal digits, most significant first. */
  function DigitsValue(s: string): nat
    requires AllDigits(s)
  {
    if s == [] then 0 else 10 * DigitsValue(s[..|s| - 1]) + DigitValue(s[|s| - 1])
  }

  /** The decimal representation of `n` without leading zeros (`usize`'s `Display`). */
  function Decimal(n: nat): string {
    if n < 10 then [DigitChar(n)] else Decimal(n / 10) + [DigitChar(n % 10)]
  }

  function Zeros(k: nat): string {
    seq(k, _ => '0')
  }

  /** `{:0>width}`: pad on the left with '0' up to `width` characters; a longer string is kept whole. */
  function PadLeft(s: string, width: nat): string {
    if |s| >= width then s else Zeros(width - |s|) + s
  }

  /** `snapshot_dir_name`. */
  function SnapshotDirName(generation: nat): string {
    SNAPSHOT_PREFIX + PadLeft(Decimal(generation), NUMBER_WIDTH)
  }

  /** The decimal representation is a digit string that reads back as `n`. */
  lemma {:induction false} DecimalRoundTrip(n: nat)
    ensures |Decimal(n)| >= 1 && AllDigits(Decimal(n)) && DigitsValue(Decimal(n)) == n
  {
    if n >= 10 {
      DecimalRoundTrip(n / 10);
      var s := Decimal(n);
      assert s[..|s| - 1] == Decimal(n / 10);
    }
  }

  /** A number below 10^k has at most k decimal digits, and one of at least 10^k has more. */
  lemma {:induction false} DecimalLength(n: nat, k: nat)
    requires k >= 1
    ensures |Decimal(n)| <= k <==> n < Pow10(k)
  {
    if n >= 10 {
      if k == 1 {
        DecimalLength(n / 10, 1);
      } else {
        DecimalLength(n / 10, k - 1);
      }
    } else if k > 1 {
      PowAtLeastTen(k);
    }
  }

  lemma {:induction false} PowAtLeastTen(k: nat)
    requires k >= 1
    ensures Pow10(k) >= 10
  {
    if k > 1 {
      PowAtLeastTen(k - 1);
    }
  }

  /** Leading zeros do not change the value of a digit string. */
  lemma {:induction false} LeadingZeros(k: nat, s: string)
    requires AllDigits(s)
    ensures AllDigits(Zeros(k) + s) && DigitsValue(Zeros(k) + s) == DigitsValue(s)
  {
    var z := Zeros(k) + s;
    assert forall j :: 0 <= j < |z| ==> IsDigit(z[j]) by {
      forall j | 0 <= j < |z| ensures IsDigit(z[j]) {
        if j >= k { assert z[j] == s[j - k]; }
      }
    }
    if s == [] {
      assert z == Zeros(k);
      ZerosValue(k);
    } else {
      assert z[..|z| - 1] == Zeros(k) + s[..|s| - 1];
      LeadingZeros(k, s[..|s| - 1]);
    }
  }

  lemma {:induction false} ZerosValue(k: nat)
    ensures AllDigits(Zeros(k)) && DigitsValue(Zeros(k)) == 0
  {
    if k > 0 {
      assert Zeros(k)[..k - 1] == Zeros(k - 1);
      ZerosValue(k - 1);
    }
  }

  /** A digit string of length k stays below 10^k. */
  lemma {:induction false} DigitsValueBound(s: string)
    requires AllDigits(s)
    ensures DigitsValue(s) < Pow10(|s|)
  {
    if s != [] {
      DigitsValueBound(s[..|s| - 1]);
    }
  }

  /** `snapshot_dir_name(n)` is "snapshot-" followed by the decimal digits of `n`, padded with '0'
      to at least six; the digits read back as `n`, so nothing is truncated. */
  lemma SnapshotDirNameSpec(n: nat)
    ensures var name := SnapshotDirName(n);
      && |name| >= MATCH_LENGTH
      && name[..|SNAPSHOT_PREFIX|] == SNAPSHOT_PREFIX
      && AllDigits(name[|SNAPSHOT_PREFIX|..])
      && DigitsValue(name[|SNAPSHOT_PREFIX|..]) == n
      && (|name| == MATCH_LENGTH <==> n < Pow10(NUMBER_WIDTH))
  {
    var name := SnapshotDirName(n);
    var digits := PadLeft(Decimal(n), NUMBER_WIDTH);
    assert name[..|SNAPSHOT_PREFIX|] == SNAPSHOT_PREFIX && name[|SNAPSHOT_PREFIX|..] == digits;
    DecimalRoundTrip(n);
    DecimalLength(n, NUMBER_WIDTH);
    if |Decimal(n)| < NUMBER_WIDTH {
      LeadingZeros(NUMBER_WIDTH - |Decimal(n)|, Decimal(n));
    }
  }

  /** Different generations get different directory names. */
  lemma SnapshotDirNameInjective(a: nat, b: nat)
    requires SnapshotDirName(a) == SnapshotDirName(b)
    ensures a == b
  {
    SnapshotDirNameSpec(a);
    SnapshotDirNameSpec(b);
  }

  /** The unanchored pattern `snapshot-\d{6}` occurs at position `i` of `s`. */
  predicate MatchesAt(s: string, i: nat) {
    && i + MATCH_LENGTH <= |s|
    && s[i..i + |SNAPSHOT_PREFIX|] == SNAPSHOT_PREFIX
    && AllDigits(s[i + |SNAPSHOT_PREFIX|..i + MATCH_LENGTH])
  }

  /** The leftmost match at or after `from` (`Regex::captures` finds the leftmost one). */
  function FindMatch(s: string, from: nat): (r: Option<nat>)
    ensures r.Some? ==> from <= r.value && MatchesAt(s, r.value)
    ensures r.Some? ==> forall j :: from <= j < r.value ==> !MatchesAt(s, j)
    ensures r.None? ==> forall j :: from <= j ==> !MatchesAt(s, j)
    decreases |s| - from
  {
    if |s| < from + MATCH_LENGTH then None
    else if MatchesAt(s, from) then Some(from)
    else FindMatch(s, from + 1)
  }

  /** `str::parse::<usize>`: an optional '+', then one or more ASCII digits, no overflow. */
  function ParseUsize(s: string): (r: Option<nat>)
    ensures r.Some? ==> r.value <= USIZE_MAX
    ensures r.Some? ==> |s| > 0 && (IsDigit(s[0]) || s[0] == '+')
    ensures |s| > 0 && AllDigits(s) && DigitsValue(s) <= USIZE_MAX ==> r == Some(DigitsValue(s))
  {
    if |s| == 0 then None
    else
      var digits := if s[0] == '+' then s[1..] else s;
      if |digits| == 0 || !AllDigits(digits) || DigitsValue(digits) > USIZE_MAX then None
      else Some(DigitsValue(digits))
  }

  /** A directory entry as `read_dir` reports it; an entry whose file type cannot be read counts
      as not a directory (`unwrap_or(false)`). */
  datatype DirEntry = DirEntry(name: string, isDir: bool)

  /** `extract_snapshot_dir_number` as written: the pattern has no capture group, so the one
      capture is the whole match, and that is what gets parsed. (The `captures.len() != 1` branch
      cannot be taken and has no counterpart here.) */
  function ExtractAsWritten(entry: DirEntry): Option<nat> {
    if !entry.isDir then None
    else match FindMatch(entry.name, 0)
      case None => None
      case Some(i) => ParseUsize(entry.name[i..i + MATCH_LENGTH])
  }

  /** The whole match starts with 's', which no `usize` does: as written, no entry ever yields a
      generation number. */
  lemma AsWrittenNeverExtracts(entry: DirEntry)
    ensures ExtractAsWritten(entry) == None
  {
    if entry.isDir {
      var m := FindMatch(entry.name, 0);
      if m.Some? {
        var i := m.value;
        assert entry.name[i..i + MATCH_LENGTH][0] == entry.name[i..i + |SNAPSHOT_PREFIX|][0] == 's';
      }
    }
  }

  /** `extract_snapshot_dir_number` as intended: parse the six digits that follow "snapshot-" in
      the leftmost match. */
  function Extract(entry: DirEntry): (r: Option<nat>)
    ensures r.Some? <==> entry.isDir && FindMatch(entry.name, 0).Some?
    ensures r.Some? ==> r.value < Pow10(NUMBER_WIDTH)
    ensures r.Some? ==>
      var i := FindMatch(entry.name, 0).value;
      r.value == DigitsValue(entry.name[i + |SNAPSHOT_PREFIX|..i + MATCH_LENGTH])
  {
    if !entry.isDir then None
    else match FindMatch(entry.name, 0)
      case None => None
      case Some(i) =>
        var digits := entry.name[i + |SNAPSHOT_PREFIX|..i + MATCH_LENGTH];
        DigitsValueBound(digits);
        ParseUsize(digits)
  }

  /** An entry yields a number exactly when it is a directory whose name contains a match. */
  lemma ExtractFindsMatches(entry: DirEntry)
    ensures Extract(entry).Some? <==> entry.isDir && exists i :: MatchesAt(entry.name, i)
  {
    if entry.isDir {
      var m := FindMatch(entry.name, 0);
      if m.Some? {
        var digits := entry.name[m.value + |SNAPSHOT_PREFIX|..m.value + MATCH_LENGTH];
        DigitsValueBound(digits);
      }
    }
  }

  /** Reading a generation back from its own directory name gives the generation, for every
      generation that fits the six-digit pattern; the program as written gives nothing. */
  lemma ExtractOfDirName(n: nat)
    requires n < Pow10(NUMBER_WIDTH)
    ensures Extract(DirEntry(SnapshotDirName(n), true)) == Some(n)
    ensures ExtractAsWritten(DirEntry(SnapshotDirName(n), true)) == None
  {
    var name := SnapshotDirName(n);
    SnapshotDirNameSpec(n);
    assert MatchesAt(name, 0);
    assert name[|SNAPSHOT_PREFIX|..MATCH_LENGTH] == name[|SNAPSHOT_PREFIX|..];
    AsWrittenNeverExtracts(DirEntry(name, true));
  }
}
