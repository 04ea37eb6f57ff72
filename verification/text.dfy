/**
 * The handful of Python string built-ins the protocols lean on: `str.strip()`,
 * `str.rstrip(ch)`, `str.upper()` compared against `EXIT`, `str.startswith`,
 * `int(text)` and `str(n)`.
 */
module Text {
  import opened Common

  /** The characters for which Python's `str.isspace()` holds; `str.strip()` removes them. */
  predicate IsSpace(c: char)
  {
    || c == ' '
    || ('\t' <= c <= '\r')
    || ('\U{1c}' <= c <= '\U{1f}')
    || c == '\U{85}' || c == '\U{a0}' || c == '\U{1680}'
    || ('\U{2000}' <= c <= '\U{200a}')
    || c == '\U{2028}' || c == '\U{2029}' || c == '\U{202f}' || c == '\U{205f}' || c == '\U{3000}'
  }

  /** `s.lstrip()`: the suffix left after every leading space is removed. */
  function TrimLeft(s: string): string
  {
    if |s| > 0 && IsSpace(s[0]) then TrimLeft(s[1..]) else s
  }

  /** `lstrip()` keeps a suffix that does not start with a space, and what it drops is all space. */
  lemma {:induction false} TrimLeftSpec(s: string)
    ensures |TrimLeft(s)| <= |s| && TrimLeft(s) == s[|s| - |TrimLeft(s)|..]
    ensures |TrimLeft(s)| > 0 ==> !IsSpace(TrimLeft(s)[0])
    ensures forall i | 0 <= i < |s| - |TrimLeft(s)| :: IsSpace(s[i])
  {
    if |s| > 0 && IsSpace(s[0]) {
      var t := s[1..];
      TrimLeftSpec(t);
      var r := TrimLeft(t);
      assert TrimLeft(s) == r;
      assert t[|t| - |r|..] == s[|s| - |r|..];
      forall i | 0 <= i < |s| - |r|
        ensures IsSpace(s[i])
      {
        if i > 0 {
          assert s[i] == t[i - 1];
        }
      }
    }
  }

  /** `s.rstrip()`: the prefix left after every trailing space is removed. */
  function TrimRight(s: string): string
  {
    if |s| > 0 && IsSpace(s[|s| - 1]) then TrimRight(s[..|s| - 1]) else s
  }

  /** `rstrip()` keeps a prefix that does not end with a space, and what it drops is all space. */
  lemma {:induction false} TrimRightSpec(s: string)
    ensures |TrimRight(s)| <= |s| && TrimRight(s) == s[..|TrimRight(s)|]
    ensures |TrimRight(s)| > 0 ==> !IsSpace(TrimRight(s)[|TrimRight(s)| - 1])
    ensures forall i | |TrimRight(s)| <= i < |s| :: IsSpace(s[i])
  {
    if |s| > 0 && IsSpace(s[|s| - 1]) {
      TrimRightSpec(s[..|s| - 1]);
    }
  }

  /** `s.strip()`. */
  function Strip(s: string): (r: string)
  {
    TrimRight(TrimLeft(s))
  }

  /** `s.strip()` keeps one contiguous slice of `s`, drops only spaces around it, and the slice neither starts nor ends with a space. */
  lemma StripSlice(s: string)
    ensures exists i, j | 0 <= i <= j <= |s| ::
      && Strip(s) == s[i..j]
      && (forall k | 0 <= k < i :: IsSpace(s[k]))
      && (forall k | j <= k < |s| :: IsSpace(s[k]))
    ensures |Strip(s)| > 0 ==> !IsSpace(Strip(s)[0]) && !IsSpace(Strip(s)[|Strip(s)| - 1])
  {
    var l := TrimLeft(s);
    var i := |s| - |l|;
    var j := i + |TrimRight(l)|;
    TrimLeftSpec(s);
    TrimRightSpec(l);
    assert forall k | j <= k < |s| :: s[k] == l[k - i];
    assert Strip(s) == s[i..j];
  }

  /** Stripping twice is stripping once. */
  lemma StripIdempotent(s: string)
    ensures Strip(Strip(s)) == Strip(s)
  {
    var r := Strip(s);
    StripSlice(s);
    assert TrimLeft(r) == r;
    assert TrimRight(r) == r;
  }

  /** `s.strip() == ""` exactly when `s` is empty or all spaces; Python's `s.strip() or default` takes the default then. */
  lemma StripEmpty(s: string)
    ensures Strip(s) == "" <==> forall k | 0 <= k < |s| :: IsSpace(s[k])
  {
    StripSlice(s);
  }

  /** Text that neither starts nor ends with a space is left alone by `strip()`. */
  lemma StripKeeps(s: string)
    requires |s| > 0 && !IsSpace(s[0]) && !IsSpace(s[|s| - 1])
    ensures Strip(s) == s
  {
    assert TrimLeft(s) == s;
  }

  /** A trailing newline after text with no spaces at its ends is all that `strip()` removes. */
  lemma StripDropsNewline(s: string)
    requires |s| > 0 && !IsSpace(s[0]) && !IsSpace(s[|s| - 1])
    ensures Strip(s + "\n") == s
  {
    var t := s + "\n";
    assert t[0] == s[0];
    assert TrimLeft(t) == t;
    assert t[|t| - 1] == '\n' && t[..|t| - 1] == s;
    assert TrimRight(t) == TrimRight(s);
    assert TrimRight(s) == s;
  }

  /** `input("Your name: ").strip() or "Anon"`, as both clients that ask for a name compute it. */
  function NameFrom(typed: string): (name: string)
    ensures |name| > 0
  {
    var s := Strip(typed);
    if s == "" then "Anon" else s
  }

  /** The name is the typed text without surrounding spaces, or `Anon` when nothing but spaces was typed; either way it has no spaces at its ends. */
  lemma NameFromSpec(typed: string)
    ensures NameFrom(typed) == (if forall k | 0 <= k < |typed| :: IsSpace(typed[k]) then "Anon" else Strip(typed))
    ensures Strip(NameFrom(typed)) == NameFrom(typed)
  {
    assert NameFrom(typed) == (if forall k | 0 <= k < |typed| :: IsSpace(typed[k]) then "Anon" else Strip(typed)) by {
      StripEmpty(typed);
    }
    if Strip(typed) == "" {
      var anon: string := "Anon";
      assert anon[0] == 'A' && anon[3] == 'n';
      StripKeeps(anon);
    } else {
      StripIdempotent(typed);
    }
  }

  /** `s.rstrip(ch)`: drop every trailing copy of one character. */
  function RStripChar(s: string, ch: char): (r: string)
    ensures |r| <= |s| && r == s[..|r|]
    ensures forall i | |r| <= i < |s| :: s[i] == ch
    ensures |r| > 0 ==> r[|r| - 1] != ch
  {
    if |s| > 0 && s[|s| - 1] == ch then RStripChar(s[..|s| - 1], ch) else s
  }

  function UpperChar(c: char): char
  {
    if 'a' <= c <= 'z' then (c as int - 'a' as int + 'A' as int) as char else c
  }

  /** `line.upper() == 'EXIT'`, with the ASCII case mapping. */
  predicate IsExitIgnoringCase(line: string)
  {
    |line| == 4
    && UpperChar(line[0]) == 'E' && UpperChar(line[1]) == 'X'
    && UpperChar(line[2]) == 'I' && UpperChar(line[3]) == 'T'
  }

  /** The EXIT test accepts exactly the sixteen upper/lower-case spellings of `exit`. */
  lemma ExitSpellings(line: string)
    ensures IsExitIgnoringCase(line) <==>
      |line| == 4 && line[0] in "eE" && line[1] in "xX" && line[2] in "iI" && line[3] in "tT"
  {
  }

  /** `s.startswith(prefix)`. */
  predicate StartsWith(s: string, prefix: string)
  {
    |prefix| <= |s| && s[..|prefix|] == prefix
  }

  // ---------------------------------------------------------------------------
  // int(text) and str(n)
  // ---------------------------------------------------------------------------

  predicate IsDigit(c: char)
  {
    '0' <= c <= '9'
  }

  predicate AllDigits(s: string)
  {
    forall i | 0 <= i < |s| :: IsDigit(s[i])
  }

  function DigitChar(d: nat): (c: char)
    requires d < 10
    ensures IsDigit(c) && c as int - '0' as int == d
  {
    ('0' as int + d) as char
  }

  /** Decimal value of a digit string, read most significant digit first. */
  function DigitsValue(s: string): nat
    requires AllDigits(s)
  {
    if |s| == 0 then 0
    else DigitsValue(s[..|s| - 1]) * 10 + (s[|s| - 1] as int - '0' as int)
  }

  /** `int(s)` on already stripped text: an optional sign and at least one ASCII digit; `None` where Python raises. */
  function ParseInt(s: string): (r: Option<int>)
    ensures r.Some? <==>
      (|s| > 0 && (if s[0] == '-' || s[0] == '+' then |s| > 1 && AllDigits(s[1..]) else AllDigits(s)))
    ensures r.Some? && s[0] == '-' ==> r.value <= 0
    ensures r.Some? && s[0] != '-' ==> r.value >= 0
  {
    if |s| == 0 then None
    else if s[0] == '-' || s[0] == '+' then
      if |s| > 1 && AllDigits(s[1..]) then
        var v: int := DigitsValue(s[1..]);
        Some(if s[0] == '-' then -v else v)
      else None
    else if AllDigits(s) then Some(DigitsValue(s))
    else None
  }

  /** `str(n)` for a non-negative `n`: decimal digits, no leading zero. */
  function ShowNat(n: nat): (s: string)
    ensures |s| > 0 && AllDigits(s)
    ensures |s| > 1 ==> s[0] != '0'
  {
    if n < 10 then [DigitChar(n)] else ShowNat(n / 10) + [DigitChar(n % 10)]
  }

  /** `str(n)`: a minus sign before the digits of a negative number. */
  function ShowInt(n: int): (s: string)
    ensures |s| > 0 && (s[0] == '-' <==> n < 0)
  {
    if n < 0 then "-" + ShowNat(-n) else ShowNat(n)
  }

  lemma {:induction false} ShowNatValue(n: nat)
    ensures DigitsValue(ShowNat(n)) == n
  {
    if n >= 10 {
      var s := ShowNat(n);
      ShowNatValue(n / 10);
      assert s[..|s| - 1] == ShowNat(n / 10);
    }
  }

  /** `int(str(n)) == n`: every integer survives being written out and read back. */
  lemma {:induction false} ParseShow(n: int)
    ensures ParseInt(ShowInt(n)) == Some(n)
  {
    if n < 0 {
      assert ShowInt(n)[1..] == ShowNat(-n);
      ShowNatValue(-n);
    } else {
      ShowNatValue(n);
    }
  }

  /** Stripping leaves the text of a number alone: it has no spaces at either end. */
  lemma StripShow(n: int)
    ensures Strip(ShowInt(n)) == ShowInt(n)
  {
    ShowIntClean(n);
    StripKeeps(ShowInt(n));
  }

  /** A written-out integer is one line with no spaces at its ends. */
  lemma ShowIntClean(n: int)
    ensures '\n' !in ShowInt(n)
    ensures !IsSpace(ShowInt(n)[0]) && !IsSpace(ShowInt(n)[|ShowInt(n)| - 1])
  {
    var s := ShowInt(n);
    if n < 0 {
      assert forall k | 1 <= k < |s| :: s[k] == ShowNat(-n)[k - 1];
    }
  }
}
