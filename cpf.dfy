/**
 * `formatCPF` of the checkout form: keep the digits of what was typed and,
 * while there are at most eleven, lay them out as the CPF mask
 * `ddd.ddd.ddd-dd` through three regular-expression replacements.
 *
 * Each replacement is modelled the way the regular expression engine runs
 * it (the leftmost match, no global flag); `CpfMask` states the mask
 * directly, and `FormatCpfIsMask` shows the two agree.
 */
module Cpf {
  import opened Text
  import opened Wrappers

  /** `value.replace(/\D/g, "")`: the digits, in order. */
  function OnlyDigits(s: string): (d: string)
    ensures AllDigits(d) && |d| <= |s|
  {
    if s == [] then []
    else if IsDigit(s[|s| - 1]) then OnlyDigits(s[..|s| - 1]) + [s[|s| - 1]]
    else OnlyDigits(s[..|s| - 1])
  }

  lemma {:induction false} OnlyDigitsOfDigits(s: string)
    requires AllDigits(s)
    ensures OnlyDigits(s) == s
  {
    if s != [] {
      OnlyDigitsOfDigits(s[..|s| - 1]);
    }
  }

  lemma {:induction false} OnlyDigitsAppend(a: string, b: string)
    ensures OnlyDigits(a + b) == OnlyDigits(a) + OnlyDigits(b)
    decreases |b|
  {
    if b == [] {
      assert a + b == a;
    } else {
      assert (a + b)[..|a + b| - 1] == a + b[..|b| - 1];
      OnlyDigitsAppend(a, b[..|b| - 1]);
    }
  }

  // ---------------------------------------------------------------------
  // The three replacements

  predicate FourDigitsAt(s: string, i: nat) {
    i + 4 <= |s| && AllDigits(s[i..i + 4])
  }

  /** Where `/(\d{3})(\d)/` matches first: the leftmost run of four digits at or after `from`. */
  function LeftmostFourDigits(s: string, from: nat): (r: Option<nat>)
    ensures r.Some? ==> from <= r.value && FourDigitsAt(s, r.value)
    ensures r.Some? ==> forall j: nat :: from <= j < r.value ==> !FourDigitsAt(s, j)
    ensures r.None? ==> forall j: nat :: from <= j ==> !FourDigitsAt(s, j)
    decreases |s| - from
  {
    if from + 4 > |s| then None
    else if FourDigitsAt(s, from) then Some(from)
    else LeftmostFourDigits(s, from + 1)
  }

  /** `s.replace(/(\d{3})(\d)/, "$1.$2")`: a point after the first three digits of the first run of four. */
  function InsertPoint(s: string): string {
    match LeftmostFourDigits(s, 0) {
      case None => s
      case Some(i) => s[..i + 3] + "." + s[i + 3..]
    }
  }

  /**
   * Where `/(\d{3})(\d{1,2})$/` matches: at the end, three digits then two
   * (the leftmost start, which the greedy `{1,2}` tries first), else three
   * digits then one. The result is where the hyphen goes.
   */
  function HyphenPosition(s: string): Option<nat> {
    if |s| >= 5 && AllDigits(s[|s| - 5..]) then Some(|s| - 2)
    else if |s| >= 4 && AllDigits(s[|s| - 4..]) then Some(|s| - 1)
    else None
  }

  /** `s.replace(/(\d{3})(\d{1,2})$/, "$1-$2")`. */
  function InsertHyphen(s: string): string {
    match HyphenPosition(s) {
      case None => s
      case Some(i) => s[..i] + "-" + s[i..]
    }
  }

  /** `formatCPF`: at most eleven digits get the mask; more are left as typed. */
  function FormatCpf(value: string): string {
    var numbers := OnlyDigits(value);
    if |numbers| <= 11 then InsertHyphen(InsertPoint(InsertPoint(numbers))) else value
  }

  // ---------------------------------------------------------------------
  // The mask, stated directly

  /** The CPF mask filled as far as the digits go: `ddd`, `ddd.ddd`, `ddd.ddd.ddd`, `ddd.ddd.ddd-dd`. */
  function CpfMask(d: string): string
    requires |d| <= 11
  {
    if |d| <= 3 then d
    else if |d| <= 6 then d[..3] + "." + d[3..]
    else if |d| <= 9 then d[..3] + "." + d[3..6] + "." + d[6..]
    else d[..3] + "." + d[3..6] + "." + d[6..9] + "-" + d[9..]
  }

  /** A leftmost search that finds four digits at `k`, and none before, returns `k`. */
  lemma LeftmostIs(s: string, k: nat)
    requires FourDigitsAt(s, k)
    requires forall j: nat :: j < k ==> !FourDigitsAt(s, j)
    ensures LeftmostFourDigits(s, 0) == Some(k)
  {
  }

  lemma NoFourDigits(s: string)
    requires forall j: nat :: !FourDigitsAt(s, j)
    ensures LeftmostFourDigits(s, 0) == None
  {
  }

  /** Any window of four that covers a non-digit is not a run of four digits. */
  lemma NotFourDigitsOver(s: string, j: nat, p: nat)
    requires j <= p < j + 4 && p < |s| && !IsDigit(s[p])
    ensures !FourDigitsAt(s, j)
  {
    if j + 4 <= |s| {
      assert s[j..j + 4][p - j] == s[p];
    }
  }

  /** On digits, the first replacement puts a point after the third digit when there are at least four. */
  lemma FirstPoint(d: string)
    requires AllDigits(d)
    ensures |d| <= 3 ==> InsertPoint(d) == d
    ensures |d| >= 4 ==> InsertPoint(d) == d[..3] + "." + d[3..]
  {
    if |d| >= 4 {
      assert AllDigits(d[0..4]);
      LeftmostIs(d, 0);
    } else {
      NoFourDigits(d);
    }
  }

  /** After `ddd.`, the second replacement puts a point after the next three digits when four follow. */
  lemma SecondPoint(d: string)
    requires AllDigits(d) && |d| >= 4
    ensures var s := d[..3] + "." + d[3..];
      (|d| <= 6 ==> InsertPoint(s) == s)
      && (|d| >= 7 ==> InsertPoint(s) == d[..3] + "." + d[3..6] + "." + d[6..])
  {
    var s := d[..3] + "." + d[3..];
    assert s[3] == '.';
    forall j: nat | j < 4
      ensures !FourDigitsAt(s, j)
    {
      NotFourDigitsOver(s, j, 3);
    }
    forall j: nat | j >= 4 && FourDigitsAt(s, j)
      ensures |d| >= 7
    {
    }
    if |d| >= 7 {
      assert s[4..8] == d[3..7];
      LeftmostIs(s, 4);
      assert s[..7] == d[..3] + "." + d[3..6];
      assert s[7..] == d[6..];
    } else {
      NoFourDigits(s);
    }
  }

  /** The third replacement puts a hyphen after the ninth digit when ten or eleven were typed, and only then. */
  lemma Hyphen(d: string)
    requires AllDigits(d) && 7 <= |d| <= 11
    ensures var s := d[..3] + "." + d[3..6] + "." + d[6..];
      (|d| <= 9 ==> InsertHyphen(s) == s)
      && (|d| >= 10 ==> InsertHyphen(s) == d[..3] + "." + d[3..6] + "." + d[6..9] + "-" + d[9..])
  {
    var s := d[..3] + "." + d[3..6] + "." + d[6..];
    var n := |s|;
    assert s[7] == '.';
    assert s[8..] == d[6..];
    if |d| <= 9 {
      assert n <= 11;
      assert !AllDigits(s[n - 4..]) by {
        assert s[n - 4..][7 - (n - 4)] == '.';
      }
      assert !AllDigits(s[n - 5..]) by {
        assert s[n - 5..][7 - (n - 5)] == '.';
      }
    } else if |d| == 10 {
      assert !AllDigits(s[n - 5..]) by {
        assert s[n - 5..][0] == s[7];
      }
      assert s[n - 4..] == d[6..];
      assert s[..n - 1] == d[..3] + "." + d[3..6] + "." + d[6..9];
      assert s[n - 1..] == d[9..];
    } else {
      assert s[n - 5..] == d[6..];
      assert s[..n - 2] == d[..3] + "." + d[3..6] + "." + d[6..9];
      assert s[n - 2..] == d[9..];
    }
  }

  /** On at most eleven digits the three replacements produce exactly the mask. */
  lemma ReplacementsAreMask(d: string)
    requires AllDigits(d) && |d| <= 11
    ensures InsertHyphen(InsertPoint(InsertPoint(d))) == CpfMask(d)
  {
    FirstPoint(d);
    if |d| <= 3 {
      NoFourDigits(d);
      assert HyphenPosition(d) == None;
    } else {
      SecondPoint(d);
      if |d| <= 6 {
        NoHyphenAfterOnePoint(d);
      } else {
        Hyphen(d);
      }
    }
  }

  /** With four to six digits, the point sits within the last four characters, so no hyphen is added. */
  lemma NoHyphenAfterOnePoint(d: string)
    requires AllDigits(d) && 3 < |d| <= 6
    ensures HyphenPosition(d[..3] + "." + d[3..]) == None
  {
    var s := d[..3] + "." + d[3..];
    assert s[3] == '.';
    assert !AllDigits(s[|s| - 4..]) by {
      assert s[|s| - 4..][3 - (|s| - 4)] == '.';
    }
    if |s| >= 5 {
      assert !AllDigits(s[|s| - 5..]) by {
        assert s[|s| - 5..][3 - (|s| - 5)] == '.';
      }
    }
  }

  /** With at most eleven digits typed, the field shows them in the mask, whatever else was typed. */
  lemma FormatCpfIsMask(value: string)
    requires |OnlyDigits(value)| <= 11
    ensures FormatCpf(value) == CpfMask(OnlyDigits(value))
  {
    ReplacementsAreMask(OnlyDigits(value));
  }

  /** With more than eleven digits the value is returned as typed. */
  lemma FormatCpfKeepsLongInput(value: string)
    requires |OnlyDigits(value)| > 11
    ensures FormatCpf(value) == value
  {
  }

  // ---------------------------------------------------------------------
  // What the mask promises

  /** A separator between two pieces disappears when the digits are kept. */
  lemma OnlyDigitsAroundSeparator(a: string, c: char, b: string)
    requires !IsDigit(c)
    ensures OnlyDigits(a + [c] + b) == OnlyDigits(a) + OnlyDigits(b)
  {
    OnlyDigitsAppend(a + [c], b);
    OnlyDigitsAppend(a, [c]);
    assert OnlyDigits([c]) == [] by { assert [c][..0] == []; }
  }

  /** The mask only adds points and a hyphen: removing them gives back the digits. */
  lemma MaskDigits(d: string)
    requires AllDigits(d) && |d| <= 11
    ensures OnlyDigits(CpfMask(d)) == d
  {
    OnlyDigitsOfDigits(d);
    if |d| > 3 {
      OnlyDigitsOfDigits(d[..3]);
      if |d| <= 6 {
        OnlyDigitsOfDigits(d[3..]);
        OnlyDigitsAroundSeparator(d[..3], '.', d[3..]);
        assert d[..3] + d[3..] == d;
      } else {
        var front := d[..3] + "." + d[3..6];
        OnlyDigitsOfDigits(d[3..6]);
        OnlyDigitsAroundSeparator(d[..3], '.', d[3..6]);
        assert OnlyDigits(front) == d[..6] by {
          assert d[..3] + d[3..6] == d[..6];
        }
        if |d| <= 9 {
          OnlyDigitsOfDigits(d[6..]);
          OnlyDigitsAroundSeparator(front, '.', d[6..]);
          assert d[..6] + d[6..] == d;
        } else {
          OnlyDigitsOfDigits(d[6..9]);
          OnlyDigitsOfDigits(d[9..]);
          OnlyDigitsAroundSeparator(front, '.', d[6..9]);
          assert OnlyDigits(front + "." + d[6..9]) == d[..9] by {
            assert d[..6] + d[6..9] == d[..9];
          }
          OnlyDigitsAroundSeparator(front + "." + d[6..9], '-', d[9..]);
          assert d[..9] + d[9..] == d;
        }
      }
    }
  }

  /** Removing the points and the hyphen from the field always gives the digits that were typed. */
  lemma FormatCpfKeepsDigits(value: string)
    ensures OnlyDigits(FormatCpf(value)) == OnlyDigits(value)
  {
    if |OnlyDigits(value)| <= 11 {
      FormatCpfIsMask(value);
      MaskDigits(OnlyDigits(value));
    }
  }

  /** Formatting what is already formatted changes nothing. */
  lemma FormatCpfIdempotent(value: string)
    ensures FormatCpf(FormatCpf(value)) == FormatCpf(value)
  {
    FormatCpfKeepsDigits(value);
    if |OnlyDigits(value)| <= 11 {
      FormatCpfIsMask(value);
      FormatCpfIsMask(FormatCpf(value));
    }
  }

  /** Eleven digits fill the mask: fourteen characters, `ddd.ddd.ddd-dd`, which the field's `maxLength` admits. */
  lemma ElevenDigitsFillMask(value: string)
    requires |OnlyDigits(value)| == 11
    ensures var f := FormatCpf(value);
      |f| == 14 && f[3] == '.' && f[7] == '.' && f[11] == '-'
      && forall i :: 0 <= i < 14 && i !in {3, 7, 11} ==> IsDigit(f[i])
  {
    FormatCpfIsMask(value);
    FullMask(OnlyDigits(value));
  }

  /** The full mask over eleven digits: digits everywhere except the two points and the hyphen. */
  lemma FullMask(d: string)
    requires |d| == 11 && AllDigits(d)
    ensures var f := CpfMask(d);
      |f| == 14 && f[3] == '.' && f[7] == '.' && f[11] == '-'
      && forall i :: 0 <= i < 14 && i !in {3, 7, 11} ==> IsDigit(f[i])
  {
    var f := CpfMask(d);
    assert f == d[..3] + "." + d[3..6] + "." + d[6..9] + "-" + d[9..];
    forall i | 0 <= i < 14 && i !in {3, 7, 11}
      ensures IsDigit(f[i])
    {
      if i < 3 {
        assert f[i] == d[i];
      } else if i < 7 {
        assert f[i] == d[i - 1];
      } else if i < 11 {
        assert f[i] == d[i - 2];
      } else {
        assert f[i] == d[i - 3];
      }
    }
  }

  /** Up to three digits are shown bare. */
  lemma ShortInputIsBare(value: string)
    requires |OnlyDigits(value)| <= 3
    ensures FormatCpf(value) == OnlyDigits(value)
  {
    FormatCpfIsMask(value);
  }

  /** A masked CPF never exceeds the field's `maxLength` of 14. */
  lemma MaskFitsField(value: string)
    requires |OnlyDigits(value)| <= 11
    ensures |FormatCpf(value)| <= 14
  {
    FormatCpfIsMask(value);
  }
}
