/**
 * Python string operations the application relies on: `str.strip()`,
 * `str.lower()`, substring tests, `str.split(sep)`, decimal conversion and
 * `str.isalnum()`.
 */
module Text {
  import opened Wrappers

  /** Python's `str.isspace()` for one character. */
  predicate IsSpace(c: char)
  {
    var n := c as int;
    (9 <= n <= 13) || (28 <= n <= 32) || n == 0x85 || n == 0xA0 || n == 0x1680
    || (0x2000 <= n <= 0x200A) || n == 0x2028 || n == 0x2029 || n == 0x202F
    || n == 0x205F || n == 0x3000
  }

  function TrimLeft(s: string): string
  {
    if s != [] && IsSpace(s[0]) then TrimLeft(s[1..]) else s
  }

  function TrimRight(s: string): string
  {
    if s != [] && IsSpace(s[|s| - 1]) then TrimRight(s[..|s| - 1]) else s
  }

  /** `s.strip()` */
  function Strip(s: string): string
  {
    TrimRight(TrimLeft(s))
  }

  predicate NoEdgeSpace(s: string)
  {
    s == [] || (!IsSpace(s[0]) && !IsSpace(s[|s| - 1]))
  }

  lemma {:induction false} TrimLeftSlice(s: string) returns (i: nat)
    ensures i <= |s| && TrimLeft(s) == s[i..]
    ensures forall k :: 0 <= k < i ==> IsSpace(s[k])
    ensures TrimLeft(s) == [] || !IsSpace(TrimLeft(s)[0])
  {
    if s != [] && IsSpace(s[0]) {
      var i' := TrimLeftSlice(s[1..]);
      i := i' + 1;
      assert TrimLeft(s) == s[i..];
      forall k | 0 <= k < i ensures IsSpace(s[k]) {
        if k > 0 { assert s[k] == s[1..][k - 1]; }
      }
    } else {
      i := 0;
    }
  }

  lemma {:induction false} TrimRightSlice(s: string) returns (j: nat)
    ensures j <= |s| && TrimRight(s) == s[..j]
    ensures forall k :: j <= k < |s| ==> IsSpace(s[k])
    ensures TrimRight(s) == [] || !IsSpace(TrimRight(s)[|TrimRight(s)| - 1])
  {
    if s != [] && IsSpace(s[|s| - 1]) {
      var p := s[..|s| - 1];
      j := TrimRightSlice(p);
      assert TrimRight(s) == s[..j];
      forall k | j <= k < |s| ensures IsSpace(s[k]) {
        if k < |p| { assert s[k] == p[k]; }
      }
    } else {
      j := |s|;
    }
  }

  lemma TrimRightKeepsFirst(s: string)
    requires s != [] && !IsSpace(s[0])
    ensures TrimRight(s) != [] && TrimRight(s)[0] == s[0]
  {
    if IsSpace(s[|s| - 1]) {
      TrimRightKeepsFirst(s[..|s| - 1]);
    }
  }

  /**
   * `s.strip()` is the slice `s[i..j]` left once the leading and trailing
   * whitespace is removed, and it begins and ends with a non-space.
   */
  lemma {:induction false} StripSlice(s: string) returns (i: nat, j: nat)
    ensures i <= j <= |s| && Strip(s) == s[i..j]
    ensures forall k :: 0 <= k < i ==> IsSpace(s[k])
    ensures forall k :: j <= k < |s| ==> IsSpace(s[k])
    ensures NoEdgeSpace(Strip(s))
  {
    i := TrimLeftSlice(s);
    var t := s[i..];
    var j' := TrimRightSlice(t);
    j := i + j';
    assert Strip(s) == s[i..j];
    forall k | j <= k < |s| ensures IsSpace(s[k]) {
      assert s[k] == t[k - i];
    }
    if t != [] {
      TrimRightKeepsFirst(t);
    }
  }

  lemma {:induction false} TrimLeftNoop(s: string)
    requires NoEdgeSpace(s)
    ensures TrimLeft(s) == s
  {
  }

  lemma {:induction false} TrimRightNoop(s: string)
    requires NoEdgeSpace(s)
    ensures TrimRight(s) == s
  {
  }

  /** A string without leading or trailing whitespace is its own strip. */
  lemma {:induction false} StripNoop(s: string)
    requires NoEdgeSpace(s)
    ensures Strip(s) == s
  {
    TrimLeftNoop(s);
    TrimRightNoop(s);
  }

  /** `s.strip()` begins and ends with a non-space. */
  lemma StripNoEdgeSpace(s: string)
    ensures NoEdgeSpace(Strip(s)) && |Strip(s)| <= |s|
  {
    var _, _ := StripSlice(s);
  }

  /** Stripping twice is stripping once. */
  lemma {:induction false} StripIdempotent(s: string)
    ensures Strip(Strip(s)) == Strip(s)
  {
    var _, _ := StripSlice(s);
    StripNoop(Strip(s));
  }

  /** `s.strip()` is empty exactly when `s` is all whitespace. */
  lemma StripEmptyIff(s: string)
    ensures Strip(s) == "" <==> forall k :: 0 <= k < |s| ==> IsSpace(s[k])
  {
    var i, j := StripSlice(s);
    if Strip(s) == "" {
      forall k | 0 <= k < |s| ensures IsSpace(s[k]) {
        assert k < i || k >= j;
      }
    } else {
      assert Strip(s)[0] == s[i];
      assert !IsSpace(s[i]);
    }
  }

  /** `str.lower()` on one character, for the ASCII letters. */
  function LowerChar(c: char): char
  {
    if 'A' <= c <= 'Z' then (c as int + 32) as char else c
  }

  /** `s.lower()`: lower-cases every character, keeping the length. */
  function Lower(s: string): (r: string)
    ensures |r| == |s|
    ensures forall k :: 0 <= k < |s| ==> r[k] == LowerChar(s[k])
  {
    if s == [] then [] else [LowerChar(s[0])] + Lower(s[1..])
  }

  lemma {:induction false} LowerIdempotent(s: string)
    ensures Lower(Lower(s)) == Lower(s)
  {
    assert forall k :: 0 <= k < |s| ==> Lower(Lower(s))[k] == Lower(s)[k];
  }

  /** Lower-casing neither adds nor removes surrounding white space. */
  lemma LowerKeepsNoEdgeSpace(s: string)
    requires NoEdgeSpace(s)
    ensures NoEdgeSpace(Lower(s))
  {
  }

  /** Stripping then lower-casing, as the flag parsers do, gives a value that normalises to itself. */
  lemma {:induction false} NormaliseIdempotent(s: string)
    ensures Lower(Strip(Lower(Strip(s)))) == Lower(Strip(s))
  {
    var _, _ := StripSlice(s);
    LowerKeepsNoEdgeSpace(Strip(s));
    StripNoop(Lower(Strip(s)));
    LowerIdempotent(Strip(s));
  }

  predicate IsPrefix(p: string, s: string)
  {
    |p| <= |s| && s[..|p|] == p
  }

  /** `sub in s` */
  predicate Contains(s: string, sub: string)
  {
    IsPrefix(sub, s) || (s != [] && Contains(s[1..], sub))
  }

  /** `s.startswith(p)` */
  predicate StartsWith(s: string, p: string)
  {
    IsPrefix(p, s)
  }

  /** Case-insensitive containment, as Django's `icontains` lookup. */
  predicate IContains(s: string, q: string)
  {
    Contains(Lower(s), Lower(q))
  }

  /** `s.split(sep)` for a one-character separator. */
  function Split(s: string, sep: char): (r: seq<string>)
    ensures |r| >= 1
  {
    if s == [] then [""]
    else
      var rest := Split(s[1..], sep);
      if s[0] == sep then [""] + rest else [[s[0]] + rest[0]] + rest[1..]
  }

  /** `sep.join(parts)` */
  function Join(parts: seq<string>, sep: char): string
  {
    if |parts| <= 1 then (if parts == [] then "" else parts[0])
    else parts[0] + [sep] + Join(parts[1..], sep)
  }

  /** Joining the pieces of a split gives back the original string. */
  lemma {:induction false} JoinSplit(s: string, sep: char)
    ensures Join(Split(s, sep), sep) == s
  {
    if s != [] {
      var rest := Split(s[1..], sep);
      JoinSplit(s[1..], sep);
      if s[0] == sep {
        assert Split(s, sep) == [""] + rest;
        assert Join([""] + rest, sep) == "" + [sep] + Join(rest, sep);
      } else {
        var r := Split(s, sep);
        assert r == [[s[0]] + rest[0]] + rest[1..];
        if |rest| == 1 {
          assert Join(r, sep) == [s[0]] + rest[0];
        } else {
          assert r[1..] == rest[1..];
          assert Join(rest, sep) == rest[0] + [sep] + Join(rest[1..], sep);
        }
      }
    }
  }

  /** No piece of a split contains the separator. */
  lemma {:induction false} SplitPiecesHaveNoSep(s: string, sep: char)
    ensures forall p :: p in Split(s, sep) ==> sep !in p
  {
    if s != [] {
      SplitPiecesHaveNoSep(s[1..], sep);
    }
  }

  predicate IsDigit(c: char)
  {
    '0' <= c <= '9'
  }

  /** `str.isalnum()` for one character, for the ASCII letters and digits. */
  predicate IsAlnum(c: char)
  {
    IsDigit(c) || ('a' <= c <= 'z') || ('A' <= c <= 'Z')
  }

  function DigitChar(d: nat): char
    requires d < 10
  {
    ('0' as int + d) as char
  }

  /** `str(n)` for a non-negative integer. */
  function NatToString(n: nat): (r: string)
    ensures |r| >= 1
    ensures forall k :: 0 <= k < |r| ==> IsDigit(r[k])
    decreases n
  {
    if n < 10 then [DigitChar(n)] else NatToString(n / 10) + [DigitChar(n % 10)]
  }

  function DigitValue(c: char): nat
    requires IsDigit(c)
  {
    c as int - '0' as int
  }

  /** The value of a run of decimal digits. */
  function DigitsValue(s: string): nat
    requires forall k :: 0 <= k < |s| ==> IsDigit(s[k])
  {
    if s == [] then 0
    else DigitsValue(s[..|s| - 1]) * 10 + DigitValue(s[|s| - 1])
  }

  predicate AllDigits(s: string)
  {
    s != [] && forall k :: 0 <= k < |s| ==> IsDigit(s[k])
  }

  /** `int(s)` for an already stripped string: an optional sign, then digits. */
  function ParseInt(s: string): (r: Option<int>)
    ensures r.Some? <==> (AllDigits(s) || (|s| >= 2 && (s[0] == '+' || s[0] == '-') && AllDigits(s[1..])))
  {
    if AllDigits(s) then Some(DigitsValue(s))
    else if |s| >= 2 && s[0] == '-' && AllDigits(s[1..]) then Some(0 - DigitsValue(s[1..]) as int)
    else if |s| >= 2 && s[0] == '+' && AllDigits(s[1..]) then Some(DigitsValue(s[1..]))
    else None
  }

  lemma {:induction false} DigitsValueOfNat(n: nat)
    ensures DigitsValue(NatToString(n)) == n
    decreases n
  {
    if n >= 10 {
      var s := NatToString(n);
      DigitsValueOfNat(n / 10);
      assert s[..|s| - 1] == NatToString(n / 10);
    }
  }

  /** Parsing the decimal form of a natural gives the natural back. */
  lemma {:induction false} ParseNatToString(n: nat)
    ensures ParseInt(NatToString(n)) == Some(n)
  {
    DigitsValueOfNat(n);
  }
}
