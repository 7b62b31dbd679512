/** Small value-level helpers shared by the decoder, the chat state and the
    message bubble: an Option type, decimal rendering of whole numbers (the
    template-literal `${n}`), string joining and concatenation, substring
    search (`String.prototype.includes`) and ASCII lower-casing. */
module Util {

  datatype Option<+T> = None | Some(value: T)

  // ---------------------------------------------------------------------------
  // Decimal rendering of a non-negative integer, as `${n}` prints it.

  function DigitChar(d: nat): (c: char)
    requires d < 10
    ensures '0' <= c <= '9'
  {
    "0123456789"[d]
  }

  function DigitValue(c: char): (d: nat)
    requires '0' <= c <= '9'
    ensures d < 10
  {
    (c as int - '0' as int) as nat
  }

  predicate IsDigits(s: string) {
    forall k :: 0 <= k < |s| ==> '0' <= s[k] <= '9'
  }

  /** The shortest decimal spelling of `n`: no leading zero except for 0 itself. */
  function NatToString(n: nat): (s: string)
    ensures |s| >= 1 && IsDigits(s)
    ensures |s| > 1 ==> s[0] != '0'
  {
    if n < 10 then [DigitChar(n)] else NatToString(n / 10) + [DigitChar(n % 10)]
  }

  /** The value a string of decimal digits denotes. */
  function DecimalValue(s: string): nat
    requires IsDigits(s)
  {
    if s == [] then 0 else DecimalValue(s[..|s| - 1]) * 10 + DigitValue(s[|s| - 1])
  }

  lemma DigitRoundTrip(d: nat)
    requires d < 10
    ensures DigitValue(DigitChar(d)) == d
  {
    var digits := "0123456789";
    assert digits[0] == '0' && digits[1] == '1' && digits[2] == '2' && digits[3] == '3'
      && digits[4] == '4' && digits[5] == '5' && digits[6] == '6' && digits[7] == '7'
      && digits[8] == '8' && digits[9] == '9';
  }

  /** Reading back the rendered digits gives the number: the rendering is faithful. */
  lemma {:induction false} NatToStringRoundTrip(n: nat)
    ensures DecimalValue(NatToString(n)) == n
  {
    if n < 10 {
      DigitRoundTrip(n);
      assert NatToString(n)[..0] == [];
    } else {
      var prefix := NatToString(n / 10);
      var s := NatToString(n);
      assert s == prefix + [DigitChar(n % 10)];
      assert s[..|s| - 1] == prefix;
      NatToStringRoundTrip(n / 10);
      DigitRoundTrip(n % 10);
    }
  }

  /** Distinct numbers render differently. */
  lemma NatToStringInjective(m: nat, n: nat)
    requires NatToString(m) == NatToString(n)
    ensures m == n
  {
    NatToStringRoundTrip(m);
    NatToStringRoundTrip(n);
  }

  // ---------------------------------------------------------------------------
  // Joining and concatenating strings.

  /** `lines.join(sep)`: the lines in order with `sep` between neighbours. */
  function Join(lines: seq<string>, sep: string): (r: string)
    ensures lines == [] ==> r == ""
    ensures lines != [] ==> lines[0] <= r
  {
    if lines == [] then ""
    else if |lines| == 1 then lines[0]
    else lines[0] + sep + Join(lines[1..], sep)
  }

  function TotalLength(lines: seq<string>): nat {
    if lines == [] then 0 else |lines[0]| + TotalLength(lines[1..])
  }

  /** Joining one more line adds exactly one separator before it. */
  lemma {:induction false} JoinSnoc(lines: seq<string>, line: string, sep: string)
    requires lines != []
    ensures Join(lines + [line], sep) == Join(lines, sep) + sep + line
  {
    if |lines| == 1 {
      assert lines + [line] == [lines[0], line];
    } else {
      assert (lines + [line])[1..] == lines[1..] + [line];
      JoinSnoc(lines[1..], line, sep);
    }
  }

  /** A join of n lines is the lines' characters plus n - 1 separators. */
  lemma {:induction false} JoinLength(lines: seq<string>, sep: string)
    requires lines != []
    ensures |Join(lines, sep)| == TotalLength(lines) + (|lines| - 1) * |sep|
  {
    if |lines| > 1 {
      JoinLength(lines[1..], sep);
    }
  }

  /** `parts.join('')`. */
  function Concat(parts: seq<string>): (r: string)
    ensures |r| == TotalLength(parts)
  {
    if parts == [] then "" else parts[0] + Concat(parts[1..])
  }

  /** Concatenating two lists of parts concatenates their concatenations. */
  lemma {:induction false} ConcatAppend(a: seq<string>, b: seq<string>)
    ensures Concat(a + b) == Concat(a) + Concat(b)
  {
    if a == [] {
      assert a + b == b;
    } else {
      assert (a + b)[1..] == a[1..] + b;
      ConcatAppend(a[1..], b);
    }
  }


  // ---------------------------------------------------------------------------
  // Substring search and lower-casing.

  /** `s.includes(p)`: some window of `s` equals `p`. */
  predicate Contains(s: string, p: string)
    ensures Contains(s, p) ==> |p| <= |s|
    ensures p == [] ==> Contains(s, p)
    decreases |s|
  {
    |p| <= |s| && (s[..|p|] == p || Contains(s[1..], p))
  }

  /** The window of `s` starting at `k` exists and equals `p`. */
  predicate WindowAt(s: string, p: string, k: int) {
    0 <= k && k + |p| <= |s| && s[k..k + |p|] == p
  }

  /** `Contains` finds exactly the windows of `s` that equal `p`. */
  lemma {:induction false} ContainsIffWindow(s: string, p: string)
    ensures Contains(s, p) <==> exists k :: WindowAt(s, p, k)
  {
    if |p| <= |s| && s[..|p|] == p {
      assert WindowAt(s, p, 0);
    } else if |p| <= |s| {
      ContainsIffWindow(s[1..], p);
      if Contains(s[1..], p) {
        var k :| WindowAt(s[1..], p, k);
        assert s[k + 1..k + 1 + |p|] == s[1..][k..k + |p|];
        assert WindowAt(s, p, k + 1);
      }
      if exists k :: WindowAt(s, p, k) {
        var k :| WindowAt(s, p, k);
        assert k != 0;
        assert s[1..][k - 1..k - 1 + |p|] == s[k..k + |p|];
        assert WindowAt(s[1..], p, k - 1);
      }
    }
  }

  /** A window at a known offset is found. */
  lemma ContainsAt(s: string, p: string, k: nat)
    requires WindowAt(s, p, k)
    ensures Contains(s, p)
  {
    ContainsIffWindow(s, p);
  }

  /** A pattern holding a character that `s` lacks is not found. */
  lemma MissingCharNotContained(s: string, p: string, c: char)
    requires c in p && c !in s
    ensures !Contains(s, p)
  {
    ContainsIffWindow(s, p);
    forall k | 0 <= k && k + |p| <= |s|
      ensures !WindowAt(s, p, k)
    {
      var m :| 0 <= m < |p| && p[m] == c;
      assert s[k..k + |p|][m] == s[k + m];
    }
  }

  function LowerChar(c: char): char {
    if 'A' <= c <= 'Z' then (c as int + 32) as char else c
  }

  /** `toLowerCase`, restricted to the ASCII letters. */
  function ToLower(s: string): (r: string)
    ensures |r| == |s|
    ensures forall k :: 0 <= k < |s| ==> r[k] == LowerChar(s[k])
  {
    if s == [] then [] else [LowerChar(s[0])] + ToLower(s[1..])
  }

  /** Lower-casing is idempotent. */
  lemma ToLowerIdempotent(s: string)
    ensures ToLower(ToLower(s)) == ToLower(s)
  {
  }
}
