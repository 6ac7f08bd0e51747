/**
 * String operations of the PHP runtime that the client relies on:
 * `str_replace` for one search string, `(string)` on an integer,
 * `explode` with a one-character delimiter and `trim`.
 * PHP strings are byte strings; here a string is a `seq<char>` and one
 * character stands for one byte.
 */
module Strings {
  import Wrappers

  /** The concatenation of a list of strings (`implode("", parts)`). */
  function Concat(parts: seq<string>): string
  {
    if parts == [] then "" else parts[0] + Concat(parts[1..])
  }

  /** `pat` occurs in `s` starting at index `i`. */
  predicate StartsAt(s: string, i: nat, pat: string)
  {
    i + |pat| <= |s| && s[i..i + |pat|] == pat
  }

  /** `pat` occurs somewhere in `s`. */
  predicate Occurs(s: string, pat: string)
  {
    exists i: nat | i <= |s| :: StartsAt(s, i, pat)
  }

  /**
   * PHP `str_replace(pat, rep, s)` for one non-empty search string: scans
   * left to right and replaces every non-overlapping occurrence; the text
   * that `rep` inserts is never scanned again in this pass.
   */
  function ReplaceAll(s: string, pat: string, rep: string): string
    requires pat != ""
    decreases |s|
  {
    if |s| < |pat| then s
    else if s[..|pat|] == pat then rep + ReplaceAll(s[|pat|..], pat, rep)
    else [s[0]] + ReplaceAll(s[1..], pat, rep)
  }

  /** A string in which `pat` does not occur is returned unchanged. */
  lemma {:induction false} ReplaceAllAbsent(s: string, pat: string, rep: string)
    requires pat != ""
    requires !Occurs(s, pat)
    ensures ReplaceAll(s, pat, rep) == s
    decreases |s|
  {
    if |s| >= |pat| {
      assert !StartsAt(s, 0, pat);
      assert !Occurs(s[1..], pat) by {
        forall i: nat | StartsAt(s[1..], i, pat)
          ensures false
        {
          assert s[1..][i..i + |pat|] == s[i + 1..i + 1 + |pat|];
          assert StartsAt(s, i + 1, pat);
        }
      }
      ReplaceAllAbsent(s[1..], pat, rep);
    }
  }

  /** An occurrence at the very start is replaced and the scan resumes after it. */
  lemma ReplaceAllLead(pat: string, rep: string, rest: string)
    requires pat != ""
    ensures ReplaceAll(pat + rest, pat, rep) == rep + ReplaceAll(rest, pat, rep)
  {
    var s := pat + rest;
    assert s[..|pat|] == pat && s[|pat|..] == rest;
  }

  /**
   * A prefix `a` in which no occurrence of `pat` starts (in `a + b`) is
   * copied to the output unchanged, and the scan continues in `b`.
   */
  lemma {:induction false} ReplaceAllSkip(a: string, b: string, pat: string, rep: string)
    requires pat != ""
    requires forall i: nat :: i < |a| ==> !StartsAt(a + b, i, pat)
    ensures ReplaceAll(a + b, pat, rep) == a + ReplaceAll(b, pat, rep)
    decreases |a|
  {
    if a != [] {
      var s := a + b;
      var t := a[1..] + b;
      assert s[1..] == t;
      if |s| < |pat| {
        assert ReplaceAll(s, pat, rep) == s;
        assert ReplaceAll(b, pat, rep) == b;
      } else {
        assert !StartsAt(s, 0, pat);
        assert ReplaceAll(s, pat, rep) == [a[0]] + ReplaceAll(t, pat, rep);
        forall i: nat | i < |a[1..]|
          ensures !StartsAt(t, i, pat)
        {
          assert !StartsAt(s, i + 1, pat);
          if i + |pat| <= |t| {
            assert t[i..i + |pat|] == s[1..][i..i + |pat|];
            assert s[1..][i..i + |pat|] == s[i + 1..i + 1 + |pat|];
          }
        }
        ReplaceAllSkip(a[1..], b, pat, rep);
        calc {
          ReplaceAll(s, pat, rep);
          [a[0]] + (a[1..] + ReplaceAll(b, pat, rep));
          ([a[0]] + a[1..]) + ReplaceAll(b, pat, rep);
          { assert [a[0]] + a[1..] == a; }
          a + ReplaceAll(b, pat, rep);
        }
      }
    } else {
      assert a + b == b;
    }
  }

  /** A prefix that does not contain the first character of `pat` is copied unchanged. */
  lemma ReplaceAllSkipText(a: string, b: string, pat: string, rep: string)
    requires pat != "" && pat[0] !in a
    ensures ReplaceAll(a + b, pat, rep) == a + ReplaceAll(b, pat, rep)
  {
    forall i: nat | i < |a|
      ensures !StartsAt(a + b, i, pat)
    {
      assert (a + b)[i] == a[i];
    }
    ReplaceAllSkip(a, b, pat, rep);
  }

  /**
   * For one-character search and replacement strings, `str_replace` maps
   * every character: the length is kept, each `c` becomes `d`, and every
   * other character is unchanged.
   */
  lemma {:induction false} ReplaceCharPointwise(s: string, c: char, d: char)
    ensures |ReplaceAll(s, [c], [d])| == |s|
    ensures forall i :: 0 <= i < |s| ==>
      ReplaceAll(s, [c], [d])[i] == if s[i] == c then d else s[i]
    decreases |s|
  {
    if s != [] {
      ReplaceCharPointwise(s[1..], c, d);
      if s[..1] == [c] {
        assert s[1..] == s[|[c]|..];
      }
    }
  }

  // ---------------------------------------------------------------------
  // Decimal rendering: PHP `(string)$n` for an integer.

  function DigitChar(d: nat): (c: char)
    requires d < 10
    ensures '0' <= c <= '9' && c as int - '0' as int == d
  {
    (d + '0' as int) as char
  }

  predicate IsDigit(c: char)
  {
    '0' <= c <= '9'
  }

  /** Decimal digits of `n`, most significant first, without leading zeros. */
  function NatToString(n: nat): (s: string)
    ensures s != [] && forall i :: 0 <= i < |s| ==> IsDigit(s[i])
    ensures s[0] == '0' ==> n == 0 && s == "0"
  {
    if n < 10 then [DigitChar(n)] else NatToString(n / 10) + [DigitChar(n % 10)]
  }

  /** PHP `(string)$n`: a minus sign for negative numbers, then the digits. */
  function IntToString(n: int): string
  {
    if n < 0 then "-" + NatToString(-n) else NatToString(n)
  }

  /** The value of a string of decimal digits. */
  function DigitsValue(s: string): int
    requires forall i :: 0 <= i < |s| ==> IsDigit(s[i])
  {
    if s == [] then 0
    else 10 * DigitsValue(s[..|s| - 1]) + (s[|s| - 1] as int - '0' as int)
  }

  /** Reads back what `IntToString` writes (an optional minus sign, then digits). */
  function ParseInt(s: string): Wrappers.Option<int>
  {
    if s != [] && s[0] == '-' then
      if s[1..] != [] && forall i :: 1 <= i < |s| ==> IsDigit(s[i]) then Wrappers.Some(0 - DigitsValue(s[1..]))
      else Wrappers.None
    else if s != [] && forall i :: 0 <= i < |s| ==> IsDigit(s[i]) then Wrappers.Some(DigitsValue(s))
    else Wrappers.None
  }

  lemma {:induction false} NatToStringValue(n: nat)
    ensures DigitsValue(NatToString(n)) == n
  {
    if n >= 10 {
      NatToStringValue(n / 10);
      var s := NatToString(n);
      assert s[..|s| - 1] == NatToString(n / 10);
    }
  }

  /** The decimal rendering of an integer reads back as the same integer. */
  lemma IntToStringRoundTrip(n: int)
    ensures ParseInt(IntToString(n)) == Wrappers.Some(n)
  {
    if n < 0 {
      NatToStringValue(-n);
      assert IntToString(n)[1..] == NatToString(-n);
    } else {
      NatToStringValue(n);
    }
  }

  lemma IntToStringHasNoBrace(n: int)
    ensures '{' !in IntToString(n)
  {
    var s := NatToString(if n < 0 then -n else n);
    assert forall i :: 0 <= i < |s| ==> s[i] != '{';
  }

  // ---------------------------------------------------------------------
  // explode(',', s) and trim(s)

  /** PHP `explode(sep, s)` for a one-character delimiter. */
  function Split(s: string, sep: char): (parts: seq<string>)
    ensures |parts| >= 1
  {
    if s == [] then [""]
    else
      var rest := Split(s[1..], sep);
      if s[0] == sep then [""] + rest
      else [[s[0]] + rest[0]] + rest[1..]
  }

  /** PHP `implode(sep, parts)`. */
  function Join(parts: seq<string>, sep: char): string
    requires |parts| >= 1
  {
    if |parts| == 1 then parts[0] else parts[0] + [sep] + Join(parts[1..], sep)
  }

  /** Joining the pieces of `explode` with the same delimiter gives back the input. */
  lemma {:induction false} SplitJoin(s: string, sep: char)
    ensures Join(Split(s, sep), sep) == s
  {
    if s != [] {
      var rest := Split(s[1..], sep);
      SplitJoin(s[1..], sep);
      if s[0] == sep {
        assert Split(s, sep)[1..] == rest;
      } else {
        var parts := Split(s, sep);
        assert parts[1..] == rest[1..];
        if |rest| == 1 {
          assert Join(parts, sep) == [s[0]] + rest[0];
        } else {
          assert Join(rest, sep) == rest[0] + [sep] + Join(rest[1..], sep);
        }
      }
    }
  }

  /** No piece that `explode` returns contains the delimiter. */
  lemma {:induction false} SplitPiecesFree(s: string, sep: char)
    ensures forall k :: 0 <= k < |Split(s, sep)| ==> sep !in Split(s, sep)[k]
  {
    if s != [] {
      SplitPiecesFree(s[1..], sep);
    }
  }

  /** The characters PHP `trim` strips by default: " \t\n\r\0\x0B". */
  predicate IsTrimmed(c: char)
  {
    c == ' ' || c == '\t' || c == '\n' || c == '\r' || c == '\0' || c == '\U{000B}'
  }

  function TrimStart(s: string): string
  {
    if s != [] && IsTrimmed(s[0]) then TrimStart(s[1..]) else s
  }

  function TrimEnd(s: string): string
  {
    if s != [] && IsTrimmed(s[|s| - 1]) then TrimEnd(s[..|s| - 1]) else s
  }

  /** PHP `trim(s)`. */
  function Trim(s: string): string
  {
    TrimEnd(TrimStart(s))
  }

  /** The number of stripped characters `s` starts with. */
  function LeadCount(s: string): (k: nat)
    ensures k <= |s|
  {
    if s != [] && IsTrimmed(s[0]) then 1 + LeadCount(s[1..]) else 0
  }

  /** The number of stripped characters `s` ends with. */
  function TailCount(s: string): (k: nat)
    ensures k <= |s|
  {
    if s != [] && IsTrimmed(s[|s| - 1]) then 1 + TailCount(s[..|s| - 1]) else 0
  }

  lemma {:induction false} TrimStartSpec(s: string)
    ensures TrimStart(s) == s[LeadCount(s)..]
    ensures forall i :: 0 <= i < LeadCount(s) ==> IsTrimmed(s[i])
    ensures TrimStart(s) != [] ==> !IsTrimmed(TrimStart(s)[0])
  {
    if s != [] && IsTrimmed(s[0]) {
      TrimStartSpec(s[1..]);
      assert s[1..][LeadCount(s[1..])..] == s[LeadCount(s)..];
      forall i | 0 < i < LeadCount(s) ensures IsTrimmed(s[i]) {
        assert s[i] == s[1..][i - 1];
      }
    } else {
      assert s[0..] == s;
    }
  }

  lemma {:induction false} TrimEndSpec(s: string)
    ensures TrimEnd(s) == s[..|s| - TailCount(s)]
    ensures forall i :: |s| - TailCount(s) <= i < |s| ==> IsTrimmed(s[i])
    ensures TrimEnd(s) != [] ==> !IsTrimmed(TrimEnd(s)[|TrimEnd(s)| - 1])
  {
    if s != [] && IsTrimmed(s[|s| - 1]) {
      var p := s[..|s| - 1];
      TrimEndSpec(p);
      assert p[..|p| - TailCount(p)] == s[..|s| - TailCount(s)];
      forall i | |s| - TailCount(s) <= i < |s| - 1 ensures IsTrimmed(s[i]) {
        assert s[i] == p[i];
      }
    } else {
      assert s[..|s|] == s;
    }
  }

  /**
   * `trim` removes a run of whitespace at each end and nothing else: the
   * result is a contiguous piece of the input that neither starts nor
   * ends with a stripped character, and everything cut off is stripped
   * characters.
   */
  lemma TrimSpec(s: string)
    ensures exists lo, hi :: (0 <= lo <= hi <= |s| && Trim(s) == s[lo..hi]
      && (forall i :: 0 <= i < lo ==> IsTrimmed(s[i]))
      && (forall i :: hi <= i < |s| ==> IsTrimmed(s[i])))
    ensures Trim(s) != [] ==> !IsTrimmed(Trim(s)[0]) && !IsTrimmed(Trim(s)[|Trim(s)| - 1])
  {
    TrimStartSpec(s);
    var lo := LeadCount(s);
    var t := s[lo..];
    TrimEndSpec(t);
    var hi := lo + |t| - TailCount(t);
    assert t[..|t| - TailCount(t)] == s[lo..hi];
    forall i | hi <= i < |s| ensures IsTrimmed(s[i]) {
      assert s[i] == t[i - lo];
    }
    if Trim(s) != [] {
      assert Trim(s)[0] == t[0];
    }
    assert 0 <= lo <= hi <= |s| && Trim(s) == s[lo..hi];
  }
}
