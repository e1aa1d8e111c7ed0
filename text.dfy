/**
 * String primitives of JavaScript's `String.prototype` that the routing and
 * pipeline code relies on: `startsWith`, `endsWith`, `includes`, the first
 * field of `split`, the second field of `split`, and `replace` with a string
 * pattern (which replaces only the first occurrence); and the byte and
 * optional-value types the other modules share.
 */
module Text {

  datatype Option<+T> = None | Some(value: T)

  /** An octet of a byte buffer. */
  type Byte = b: nat | b < 256

  /** JavaScript truthiness of an optional string: present and not "". */
  predicate Truthy(s: Option<string>) {
    s.Some? && s.value != ""
  }

  predicate StartsWith(s: string, prefix: string) {
    |prefix| <= |s| && s[..|prefix|] == prefix
  }

  predicate EndsWith(s: string, suffix: string) {
    |suffix| <= |s| && s[|s| - |suffix|..] == suffix
  }

  /** `p` occurs in `s` starting at position `i`. */
  predicate OccursAt(s: string, p: string, i: nat) {
    i + |p| <= |s| && s[i..i + |p|] == p
  }

  /** `s.includes(p)`: `p` occurs in `s` at some position. */
  predicate Contains(s: string, p: string) {
    exists i: nat | i <= |s| :: OccursAt(s, p, i)
  }

  /** The empty string is contained in every string. */
  lemma ContainsEmpty(s: string)
    ensures Contains(s, "")
  {
    assert OccursAt(s, "", 0);
  }

  /** A prefix is contained. */
  lemma StartsWithContains(s: string, p: string)
    requires StartsWith(s, p)
    ensures Contains(s, p)
  {
    assert OccursAt(s, p, 0);
  }

  /** Index of the first occurrence of `c` in `s`, or |s| when it does not occur. */
  function FirstIndexOf(s: string, c: char): (k: nat)
    ensures k <= |s|
    ensures k < |s| ==> s[k] == c
    ensures forall j | 0 <= j < k :: s[j] != c
  {
    if s == [] then 0
    else if s[0] == c then 0
    else 1 + FirstIndexOf(s[1..], c)
  }

  /** `s.split(sep)[0]` for a one-character separator: everything before the first `sep`. */
  function SplitHead(s: string, sep: char): (head: string)
    ensures sep !in head
    ensures StartsWith(s, head)
    ensures |head| == |s| || s[|head|] == sep
  {
    s[..FirstIndexOf(s, sep)]
  }

  /**
   * `s.split(sep)[1]` for a one-character separator: the text between the first
   * and the second `sep`, or undefined (None) when `sep` does not occur.
   */
  function SplitSecond(s: string, sep: char): (field: Option<string>)
    ensures field.None? <==> sep !in s
    ensures field.Some? ==> sep !in field.value
    ensures field.Some? ==> StartsWith(s, SplitHead(s, sep) + [sep] + field.value)
    ensures field.Some? ==>
      var e := |SplitHead(s, sep)| + 1 + |field.value|; e == |s| || s[e] == sep
  {
    var k := FirstIndexOf(s, sep);
    if k == |s| then None
    else
      var rest := s[k + 1..];
      assert s[..k] + [sep] + SplitHead(rest, sep) == s[..k + 1 + |SplitHead(rest, sep)|];
      Some(SplitHead(rest, sep))
  }

  /** The first `c` in `s` is at `k` when `s[..k]` holds none and `k` ends `s` or holds `c`. */
  lemma FirstIndexOfAt(s: string, c: char, k: nat)
    requires k <= |s| && c !in s[..k]
    requires k == |s| || s[k] == c
    ensures FirstIndexOf(s, c) == k
  {
  }

  /** The second field of `a + [sep] + b + rest` is `b` when `rest` is empty or starts with `sep`. */
  lemma SplitSecondOf(a: string, b: string, rest: string, sep: char)
    requires sep !in a && sep !in b
    requires rest == [] || rest[0] == sep
    ensures SplitSecond(a + [sep] + b + rest, sep) == Some(b)
  {
    var s := a + [sep] + b + rest;
    assert s[..|a|] == a;
    FirstIndexOfAt(s, sep, |a|);
    var tail := s[|a| + 1..];
    assert tail == b + rest;
    assert tail[..|b|] == b;
    FirstIndexOfAt(tail, sep, |b|);
  }

  /** Position of the first occurrence of `p` in `s`, if any. */
  function FindFirst(s: string, p: string): (k: Option<nat>)
    ensures k.Some? ==> OccursAt(s, p, k.value)
    ensures k.Some? ==> forall j: nat | j < k.value :: !OccursAt(s, p, j)
    ensures k.None? <==> !Contains(s, p)
    decreases |s|
  {
    if |p| > |s| then None
    else if s[..|p|] == p then
      assert OccursAt(s, p, 0);
      Some(0)
    else
      ContainsStep(s, p);
      match FindFirst(s[1..], p)
      case None => None
      case Some(k) =>
        assert forall j: nat | 0 < j < k + 1 :: !OccursAt(s, p, j) by {
          forall j: nat | 0 < j < k + 1
            ensures !OccursAt(s, p, j)
          {
            ShiftOccurrence(s, p, j - 1);
          }
        }
        Some(k + 1)
  }

  /** An occurrence at `i + 1` in `s` is an occurrence at `i` in `s[1..]`. */
  lemma ShiftOccurrence(s: string, p: string, i: nat)
    requires s != []
    ensures OccursAt(s, p, i + 1) <==> OccursAt(s[1..], p, i)
  {
    if i + 1 + |p| <= |s| {
      assert s[1..][i..i + |p|] == s[i + 1..i + 1 + |p|];
    }
  }

  /** `p` occurs in a non-empty `s` iff it starts it or occurs in its tail. */
  lemma ContainsStep(s: string, p: string)
    requires s != []
    ensures Contains(s, p) <==> OccursAt(s, p, 0) || Contains(s[1..], p)
    ensures forall j: nat :: OccursAt(s, p, j + 1) <==> OccursAt(s[1..], p, j)
  {
    forall j: nat
      ensures OccursAt(s, p, j + 1) <==> OccursAt(s[1..], p, j)
    {
      ShiftOccurrence(s, p, j);
    }
    if Contains(s, p) && !OccursAt(s, p, 0) {
      var i: nat :| i <= |s| && OccursAt(s, p, i);
      assert i > 0;
      ShiftOccurrence(s, p, i - 1);
      assert OccursAt(s[1..], p, i - 1);
    }
    if Contains(s[1..], p) {
      var i: nat :| i <= |s[1..]| && OccursAt(s[1..], p, i);
      ShiftOccurrence(s, p, i);
      assert OccursAt(s, p, i + 1);
    }
  }

  /** `s.replace(p, r)` with a string pattern: only the first occurrence is replaced. */
  function ReplaceFirst(s: string, p: string, r: string): (t: string)
    ensures !Contains(s, p) ==> t == s
    ensures Contains(s, p) ==>
      && |t| == |s| - |p| + |r|
      && exists k: nat | OccursAt(s, p, k) && (forall j: nat | j < k :: !OccursAt(s, p, j)) ::
           t == s[..k] + r + s[k + |p|..]
  {
    match FindFirst(s, p)
    case None => s
    case Some(k) => s[..k] + r + s[k + |p|..]
  }

  /** Replacing the first occurrence of `p` by nothing removes exactly that occurrence. */
  lemma RemoveFirst(s: string, p: string)
    requires Contains(s, p)
    ensures exists k: nat | OccursAt(s, p, k) && (forall j: nat | j < k :: !OccursAt(s, p, j)) ::
      ReplaceFirst(s, p, "") == s[..k] + s[k + |p|..]
  {
    var k := FindFirst(s, p).value;
    assert s[..k] + "" == s[..k];
  }

  /**
   * When the pattern's first character does not occur in `head`, the first
   * occurrence of the pattern in `head + p + rest` is the one right after
   * `head`, and replacing it by "" leaves `head + rest`.
   */
  lemma ReplaceFirstAfter(head: string, p: string, rest: string)
    requires p != "" && p[0] !in head
    ensures ReplaceFirst(head + p + rest, p, "") == head + rest
  {
    var s := head + p + rest;
    assert s[|head|..|head| + |p|] == p;
    assert OccursAt(s, p, |head|);
    forall j: nat | j < |head|
      ensures !OccursAt(s, p, j)
    {
      assert s[j] == head[j] != p[0];
      if j + |p| <= |s| {
        assert s[j..j + |p|][0] == s[j];
      }
    }
    FirstOccurrence(s, p, |head|);
    assert s[..|head|] == head;
    assert s[|head| + |p|..] == rest;
  }

  /** An occurrence with none before it is the one `FindFirst` finds. */
  lemma FirstOccurrence(s: string, p: string, k: nat)
    requires OccursAt(s, p, k)
    requires forall j: nat | j < k :: !OccursAt(s, p, j)
    ensures FindFirst(s, p) == Some(k)
  {
    assert k <= |s|;
    assert Contains(s, p);
    assert FindFirst(s, p).Some?;
    assert OccursAt(s, p, FindFirst(s, p).value);
  }

  /** A string without the pattern's first character does not contain the pattern. */
  lemma NotContainsWithoutFirst(s: string, p: string)
    requires p != "" && p[0] !in s
    ensures !Contains(s, p)
  {
    forall j: nat | j <= |s|
      ensures !OccursAt(s, p, j)
    {
      if j + |p| <= |s| {
        assert s[j..j + |p|][0] == s[j];
      }
    }
  }

  /** The character of a decimal digit. */
  function DigitChar(d: nat): (c: char)
    requires d < 10
    ensures '0' <= c <= '9'
  {
    ('0' as int + d) as char
  }

  predicate IsDigits(s: string) {
    forall i | 0 <= i < |s| :: '0' <= s[i] <= '9'
  }

  /** The value of a string of decimal digits. */
  function DecimalValue(s: string): nat
    requires IsDigits(s)
  {
    if s == [] then 0 else DecimalValue(s[..|s| - 1]) * 10 + (s[|s| - 1] as int - '0' as int)
  }

  /** A natural number in a template literal: its decimal digits, without leading zeros. */
  function NatToDecimal(n: nat): (s: string)
    ensures s != [] && IsDigits(s)
    ensures s[0] == '0' ==> n == 0
  {
    if n < 10 then [DigitChar(n)] else NatToDecimal(n / 10) + [DigitChar(n % 10)]
  }

  /** Reading the decimal digits back gives the number. */
  lemma {:induction false} DecimalRoundTrip(n: nat)
    ensures DecimalValue(NatToDecimal(n)) == n
  {
    var s := NatToDecimal(n);
    if n >= 10 {
      DecimalRoundTrip(n / 10);
      assert s[..|s| - 1] == NatToDecimal(n / 10);
    }
  }
}
