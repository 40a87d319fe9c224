/** The Python string operations the preprocessing code relies on: `in`, `str.replace`,
    `str.split()`, `str.split(sep)[0]`, a `re.sub` whose pattern runs to the end of a line,
    `int(...)` and `str(int)`. Strings are sequences of Unicode code points. */
module PyStr {
  import opened Common

  /** `str.isspace()` for one character: the characters Python's `split()` splits on. */
  predicate IsSpace(c: char) {
    c == ' ' || ('\t' <= c <= '\r') || ('\U{1c}' <= c <= '\U{1f}') || c == '\U{85}' || c == '\U{a0}'
    || c == '\U{1680}' || ('\U{2000}' <= c <= '\U{200a}') || c == '\U{2028}' || c == '\U{2029}'
    || c == '\U{202f}' || c == '\U{205f}' || c == '\U{3000}'
  }

  predicate StartsWith(s: string, p: string) {
    |p| <= |s| && s[..|p|] == p
  }

  /** `sub in s`. */
  predicate Contains(s: string, sub: string)
    decreases |s|
  {
    StartsWith(s, sub) || (s != [] && Contains(s[1..], sub))
  }

  /** `Contains` is the existence of an occurrence. */
  lemma {:induction false} ContainsAt(s: string, sub: string, i: nat)
    requires i + |sub| <= |s| && s[i..i + |sub|] == sub
    ensures Contains(s, sub)
  {
    if i > 0 {
      assert s[1..][i - 1..i - 1 + |sub|] == s[i..i + |sub|];
      ContainsAt(s[1..], sub, i - 1);
    }
  }

  /** `s.replace(pat, rep)` for a non-empty `pat`: occurrences are replaced left to right
      without overlapping. */
  function ReplaceAll(s: string, pat: string, rep: string): (r: string)
    requires pat != []
    decreases |s|
  {
    if s == [] then []
    else if StartsWith(s, pat) then rep + ReplaceAll(s[|pat|..], pat, rep)
    else [s[0]] + ReplaceAll(s[1..], pat, rep)
  }

  /** Nothing to replace leaves the string unchanged. */
  lemma {:induction false} ReplaceAbsent(s: string, pat: string, rep: string)
    requires pat != [] && !Contains(s, pat)
    ensures ReplaceAll(s, pat, rep) == s
    decreases |s|
  {
    if s != [] {
      ReplaceAbsent(s[1..], pat, rep);
    }
  }

  /** Replacing never brings in a character that neither the string nor the replacement holds. */
  lemma {:induction false} ReplaceKeepsOut(s: string, pat: string, rep: string, c: char)
    requires pat != [] && c !in s && c !in rep
    ensures c !in ReplaceAll(s, pat, rep)
    decreases |s|
  {
    if s != [] {
      if StartsWith(s, pat) {
        ReplaceKeepsOut(s[|pat|..], pat, rep, c);
      } else {
        ReplaceKeepsOut(s[1..], pat, rep, c);
      }
    }
  }

  /** Some character is not whitespace. */
  predicate HasVisible(s: string) {
    exists i :: 0 <= i < |s| && !IsSpace(s[i])
  }

  /** Replacing by a non-empty text without whitespace keeps a string that has a visible character
      visible. */
  lemma {:induction false} ReplaceKeepsVisible(s: string, pat: string, rep: string)
    requires pat != [] && rep != [] && forall c :: c in rep ==> !IsSpace(c)
    requires HasVisible(s)
    ensures HasVisible(ReplaceAll(s, pat, rep))
    decreases |s|
  {
    var r := ReplaceAll(s, pat, rep);
    if StartsWith(s, pat) {
      assert r[0] == rep[0];
    } else if !IsSpace(s[0]) {
      assert r[0] == s[0];
    } else {
      var i :| 0 <= i < |s| && !IsSpace(s[i]);
      assert !IsSpace(s[1..][i - 1]);
      ReplaceKeepsVisible(s[1..], pat, rep);
      var j :| 0 <= j < |ReplaceAll(s[1..], pat, rep)| && !IsSpace(ReplaceAll(s[1..], pat, rep)[j]);
      assert r[j + 1] == ReplaceAll(s[1..], pat, rep)[j];
    }
  }

  /** The longest prefix without whitespace. */
  function Word(s: string): (w: string)
    ensures |w| <= |s| && w == s[..|w|]
    ensures forall c :: c in w ==> !IsSpace(c)
    ensures |w| < |s| ==> IsSpace(s[|w|])
  {
    if s == [] || IsSpace(s[0]) then [] else [s[0]] + Word(s[1..])
  }

  /** `s.split()`: the maximal runs of non-whitespace characters, in order. */
  function Tokens(s: string): (ts: seq<string>)
    ensures forall t :: t in ts ==> t != [] && forall c :: c in t ==> !IsSpace(c)
    decreases |s|
  {
    if s == [] then []
    else if IsSpace(s[0]) then Tokens(s[1..])
    else [Word(s)] + Tokens(s[|Word(s)|..])
  }

  /** `split()` finds a token exactly when there is a visible character. */
  lemma {:induction false} TokensNonEmpty(s: string)
    ensures Tokens(s) != [] <==> HasVisible(s)
    decreases |s|
  {
    if s != [] && IsSpace(s[0]) {
      TokensNonEmpty(s[1..]);
      if HasVisible(s) {
        var i :| 0 <= i < |s| && !IsSpace(s[i]);
        assert !IsSpace(s[1..][i - 1]);
      }
      if HasVisible(s[1..]) {
        var i :| 0 <= i < |s[1..]| && !IsSpace(s[1..][i]);
        assert !IsSpace(s[i + 1]);
      }
    } else if s != [] {
      assert !IsSpace(s[0]);
    }
  }

  /** A string holding a pattern that starts with a visible character has a visible character. */
  lemma {:induction false} ContainsVisible(s: string, sub: string)
    requires Contains(s, sub) && sub != [] && !IsSpace(sub[0])
    ensures HasVisible(s)
    decreases |s|
  {
    if StartsWith(s, sub) {
      assert s[0] == sub[0];
    } else {
      ContainsVisible(s[1..], sub);
      var i :| 0 <= i < |s[1..]| && !IsSpace(s[1..][i]);
      assert !IsSpace(s[i + 1]);
    }
  }

  /** The first token is the word that starts at the first visible character. */
  lemma {:induction false} FirstTokenAfterBlanks(s: string, i: nat)
    requires i < |s| && !IsSpace(s[i])
    requires forall k :: 0 <= k < i ==> IsSpace(s[k])
    ensures Tokens(s) != [] && Tokens(s)[0] == Word(s[i..])
    decreases i
  {
    if i > 0 {
      assert s[1..][i - 1..] == s[i..];
      FirstTokenAfterBlanks(s[1..], i - 1);
    }
  }

  /** Text without whitespace is its own `strip()`. */
  lemma {:induction false} StripNoSpace(s: string)
    requires forall c :: c in s ==> !IsSpace(c)
    ensures Strip(s) == s
  {
    if s != [] {
      assert s[0] in s && s[|s| - 1] in s;
    }
  }

  /** `s.split()[k]`, or IndexError when there are not enough tokens. */
  function Token(s: string, k: nat): (r: Result<string>)
    ensures r.Err? <==> |Tokens(s)| <= k
    ensures r.Ok? ==> r.value == Tokens(s)[k] && r.value != []
  {
    var ts := Tokens(s);
    if k < |ts| then assert ts[k] in ts; Ok(ts[k]) else Err(IndexError)
  }

  /** `s.split(sep)[0]`: the text before the first `sep`, or all of `s` when there is none. */
  function BeforeFirst(s: string, sep: char): (r: string)
  {
    if s == [] || s[0] == sep then [] else [s[0]] + BeforeFirst(s[1..], sep)
  }

  lemma {:induction false} BeforeFirstIsPrefix(s: string, sep: char)
    ensures |BeforeFirst(s, sep)| <= |s| && BeforeFirst(s, sep) == s[..|BeforeFirst(s, sep)|]
    ensures sep !in BeforeFirst(s, sep)
    ensures |BeforeFirst(s, sep)| < |s| ==> s[|BeforeFirst(s, sep)|] == sep
    ensures sep !in s ==> BeforeFirst(s, sep) == s
  {
    if s != [] && s[0] != sep {
      BeforeFirstIsPrefix(s[1..], sep);
    }
  }

  /** The rest of the current line: `s` from its first line break on, or nothing. */
  function FromLineBreak(s: string): (r: string)
    ensures |r| <= |s|
    ensures s != [] && s[0] != '\n' ==> |r| < |s|
    ensures r != [] ==> r[0] == '\n'
  {
    if s == [] then [] else if s[0] == '\n' then s else FromLineBreak(s[1..])
  }

  /** `re.sub(re.escape(pat) + '.*', '', s)`: on every line, the text from the first occurrence of
      `pat` to the end of that line is removed (`.` does not match a line break). */
  function CutAtPerLine(s: string, pat: string): (r: string)
    requires pat != [] && pat[0] != '\n'
    decreases |s|
  {
    if s == [] then []
    else if StartsWith(s, pat) then CutAtPerLine(FromLineBreak(s), pat)
    else [s[0]] + CutAtPerLine(s[1..], pat)
  }

  /** On a single line the cut keeps exactly the text before the first occurrence of `pat`:
      a prefix of `s` in which `pat` does not occur, followed in `s` by `pat` whenever `pat` occurs. */
  lemma {:induction false} CutAtSingleLine(s: string, pat: string)
    requires pat != [] && pat[0] != '\n' && '\n' !in s
    ensures |CutAtPerLine(s, pat)| <= |s|
    ensures CutAtPerLine(s, pat) == s[..|CutAtPerLine(s, pat)|]
    ensures Contains(s, pat) <==> StartsWith(s[|CutAtPerLine(s, pat)|..], pat)
    ensures !Contains(CutAtPerLine(s, pat), pat)
    ensures !Contains(s, pat) ==> CutAtPerLine(s, pat) == s
    decreases |s|
  {
    if s == [] {
    } else if StartsWith(s, pat) {
      assert FromLineBreak(s) == [] by { NoLineBreak(s); }
    } else {
      CutAtSingleLine(s[1..], pat);
      var r := CutAtPerLine(s, pat);
      var r' := CutAtPerLine(s[1..], pat);
      assert r == [s[0]] + r';
      assert s[|r|..] == s[1..][|r'|..];
      assert r[1..] == r';
      assert |pat| <= |r| ==> s[..|pat|] == r[..|pat|];
    }
  }

  lemma {:induction false} NoLineBreak(s: string)
    requires '\n' !in s
    ensures FromLineBreak(s) == []
  {
    if s != [] {
      NoLineBreak(s[1..]);
    }
  }

  predicate IsDigit(c: char) {
    '0' as int <= c as int <= '9' as int
  }

  /** The value of a non-empty string of decimal digits. */
  function DigitsValue(s: string): (n: nat)
    requires forall c :: c in s ==> IsDigit(c)
  {
    if s == [] then 0
    else
      var last := s[|s| - 1];
      assert last in s && IsDigit(last);
      DigitsValue(s[..|s| - 1]) * 10 + (last as int - '0' as int)
  }

  /** The string without leading and trailing whitespace. */
  function Strip(s: string): (r: string)
    decreases |s|
  {
    if s != [] && IsSpace(s[0]) then Strip(s[1..])
    else if s != [] && IsSpace(s[|s| - 1]) then Strip(s[..|s| - 1])
    else s
  }

  /** `int(s)` for ASCII digits: surrounding whitespace is ignored, an optional sign is read,
      at least one digit must follow; anything else raises ValueError. */
  function ParseInt(s: string): (r: Result<int>)
    ensures r.Ok? && (forall c :: c in s ==> IsDigit(c)) ==> r.value == DigitsValue(s)
    ensures (forall c :: c in s ==> IsDigit(c)) ==> (r.Ok? <==> s != [])
  {
    var t := Strip(s);
    assert (forall c :: c in s ==> IsDigit(c)) ==> t == s by {
      if forall c :: c in s ==> IsDigit(c) { StripDigits(s); }
    }
    if t != [] && (t[0] == '+' || t[0] == '-') then
      var d := t[1..];
      assert t[0] in t && !IsDigit(t[0]);
      if d != [] && forall c :: c in d ==> IsDigit(c) then
        var v: int := if t[0] == '-' then -(DigitsValue(d) as int) else DigitsValue(d);
        Ok(v)
      else Err(ValueError)
    else if t != [] && forall c :: c in t ==> IsDigit(c) then Ok(DigitsValue(t))
    else Err(ValueError)
  }

  lemma {:induction false} StripDigits(s: string)
    requires forall c :: c in s ==> IsDigit(c)
    ensures Strip(s) == s
  {
    if s != [] {
      assert s[0] in s && s[|s| - 1] in s;
    }
  }

  /** `str(n)` for an integer: decimal digits, a minus sign for negative numbers. */
  function DecimalString(n: int): (r: string)
    ensures r != []
    decreases if n < 0 then -n + 1 else n
  {
    if n < 0 then "-" + DecimalString(-n)
    else if n < 10 then [('0' as int + n) as char]
    else DecimalString(n / 10) + [('0' as int + n % 10) as char]
  }

  /** The text of a natural number is all digits, and their value is the number. */
  lemma {:induction false} DecimalDigits(n: nat)
    ensures forall c :: c in DecimalString(n) ==> IsDigit(c)
    ensures DigitsValue(DecimalString(n)) == n
    decreases n
  {
    var s := DecimalString(n);
    if n < 10 {
      assert s == [('0' as int + n) as char];
      assert s[..0] == [];
    } else {
      var init := DecimalString(n / 10);
      DecimalDigits(n / 10);
      var d := ('0' as int + n % 10) as char;
      assert s == init + [d];
      assert forall c :: c in s ==> c in init || c == d;
      assert s[..|s| - 1] == init;
    }
  }

  /** `int(str(n)) == n`: reading the text of an integer gives the integer back. */
  lemma {:induction false} ParseIntDecimal(n: int)
    ensures ParseInt(DecimalString(n)) == Ok(n)
  {
    if n >= 0 {
      DecimalDigits(n);
    } else {
      var d := DecimalString(-n);
      var s := DecimalString(n);
      DecimalDigits(-n);
      assert s == "-" + d && s[1..] == d;
      assert d[|d| - 1] in d;
      assert !IsSpace(s[0]) && !IsSpace(s[|s| - 1]);
      assert Strip(s) == s;
    }
  }

  /** Different integers have different texts. */
  lemma {:induction false} DecimalStringInjective(m: int, n: int)
    ensures DecimalString(m) == DecimalString(n) ==> m == n
  {
    ParseIntDecimal(m);
    ParseIntDecimal(n);
  }
}
