/** The phone-detail normalisation shared by preprocessing/preprocessing.py and cliks_add.py:
    a raw `user_phone_details` text such as `iOS, 15.1.1` or `Android, 11 (SM-A515F)` is cut
    down to its platform and major version, and then to a platform code (`2` for iOS, `1` for
    Android) or a platform code followed by the major version. */
module Phone {
  import opened Common
  import opened PyStr

  /** `r` is `s` up to (not including) the first occurrence of `pat`, or all of `s`. */
  ghost predicate CutBefore(r: string, s: string, pat: string) {
    |r| <= |s| && r == s[..|r|] && !Contains(r, pat) && (Contains(s, pat) <==> StartsWith(s[|r|..], pat))
  }

  /** The first step, on a `user_phone_details` cell: a missing cell (NaN, a float) makes
      `'iOS' in x` raise TypeError; for iOS texts every `'iOS '` is removed and the text from the
      first `.` on is cut; any other text is cut from the first `' ('` on. */
  function StripVersion(cell: Option<string>): (r: Result<string>)
    ensures r.Err? <==> cell.None?
    ensures r.Err? ==> r.error == TypeError
  {
    if cell.None? then Err(TypeError)
    else if Contains(cell.value, "iOS") then Ok(CutAtPerLine(ReplaceAll(cell.value, "iOS ", ""), "."))
    else Ok(CutAtPerLine(cell.value, " ("))
  }

  /** The second step: Android texts are cut from the first `.` on; others are left alone. */
  function StripAndroidVersion(x: string): string {
    if Contains(x, "Android") then CutAtPerLine(x, ".") else x
  }

  /** `user_phone_details_id`: both steps; the second only ever sees the text the first returned,
      so a missing cell fails the whole column with the first step's TypeError. */
  function PhoneDetailsId(cell: Option<string>): (r: Result<string>)
    ensures r.Err? <==> cell.None?
    ensures r.Err? ==> r.error == TypeError
  {
    var first := StripVersion(cell);
    if first.Err? then Err(first.error) else Ok(StripAndroidVersion(first.value))
  }

  /** On a present one-line text, the first step keeps exactly what precedes the first `.` of the
      text without its `'iOS '`s, or what precedes the first `' ('`. */
  lemma {:induction false} StripVersionSpec(x: string)
    requires '\n' !in x
    ensures StripVersion(Some(x)).Ok?
    ensures Contains(x, "iOS") ==> CutBefore(StripVersion(Some(x)).value, ReplaceAll(x, "iOS ", ""), ".")
    ensures !Contains(x, "iOS") ==> CutBefore(StripVersion(Some(x)).value, x, " (")
  {
    if Contains(x, "iOS") {
      ReplaceKeepsOut(x, "iOS ", "", '\n');
      CutAtSingleLine(ReplaceAll(x, "iOS ", ""), ".");
    } else {
      CutAtSingleLine(x, " (");
    }
  }

  /** On a one-line text, the second step keeps what precedes the first `.` of an Android text and
      leaves every other text unchanged. */
  lemma {:induction false} StripAndroidVersionSpec(x: string)
    requires '\n' !in x
    ensures Contains(x, "Android") ==> CutBefore(StripAndroidVersion(x), x, ".")
    ensures !Contains(x, "Android") ==> StripAndroidVersion(x) == x
  {
    if Contains(x, "Android") {
      CutAtSingleLine(x, ".");
    }
  }

  /** Applying the second step twice changes nothing more. */
  lemma {:induction false} StripAndroidVersionIdempotent(x: string)
    requires '\n' !in x
    ensures StripAndroidVersion(StripAndroidVersion(x)) == StripAndroidVersion(x)
  {
    var y := StripAndroidVersion(x);
    StripAndroidVersionSpec(x);
    if Contains(x, "Android") {
      assert '\n' !in y by {
        forall k | 0 <= k < |y| ensures y[k] != '\n' {
          assert y[k] == x[k];
        }
      }
      if Contains(y, "Android") {
        CutAtSingleLine(y, ".");
      }
    }
  }

  /** `type_phone`: the first token after `'iOS,'` becomes `2` (texts mentioning iOS) or
      `'Android,'` becomes `1` (all others); IndexError when there is no token. */
  function TypePhone(x: string): Result<string> {
    if Contains(x, "iOS") then Token(ReplaceAll(x, "iOS,", "2"), 0)
    else Token(ReplaceAll(x, "Android,", "1"), 0)
  }

  /** The platform code exists exactly when the text has a visible character, and it is a
      non-empty run of visible characters. */
  lemma {:induction false} TypePhoneDefined(x: string)
    ensures TypePhone(x).Err? <==> !HasVisible(x)
    ensures TypePhone(x).Ok? ==> TypePhone(x).value != [] && forall c :: c in TypePhone(x).value ==> !IsSpace(c)
  {
    var pat := if Contains(x, "iOS") then "iOS," else "Android,";
    var rep := if Contains(x, "iOS") then "2" else "1";
    var y := ReplaceAll(x, pat, rep);
    assert TypePhone(x) == Token(y, 0);
    TokensNonEmpty(y);
    if HasVisible(x) {
      ReplaceKeepsVisible(x, pat, rep);
    } else {
      if Contains(x, pat) {
        ContainsVisible(x, pat);
      }
      ReplaceAbsent(x, pat, rep);
    }
    if TypePhone(x).Ok? {
      assert Tokens(y)[0] in Tokens(y);
    }
  }

  /** Replacing a leading platform word that a blank or the end follows gives the replacement as
      first token. */
  lemma {:induction false} LeadingWordReplaced(x: string, pat: string, rep: string)
    requires pat != [] && !IsSpace(pat[0]) && StartsWith(x, pat)
    requires (|x| == |pat| || IsSpace(x[|pat|]))
    requires rep != [] && forall c :: c in rep ==> !IsSpace(c)
    ensures Token(ReplaceAll(x, pat, rep), 0) == Ok(rep)
  {
    var y := ReplaceAll(x, pat, rep);
    var t := x[|pat|..];
    var rest := ReplaceAll(t, pat, rep);
    assert y == rep + rest;
    if t != [] {
      assert !StartsWith(t, pat);
      assert rest == [t[0]] + ReplaceAll(t[1..], pat, rep);
    }
    WordOfPrefix(rep, rest);
    assert Word(y) == rep;
    assert !IsSpace(y[0]) by {
      assert y[0] == rep[0] && rep[0] in rep;
    }
  }

  /** A run of visible characters followed by a blank or nothing is the word. */
  lemma {:induction false} WordOfPrefix(w: string, rest: string)
    requires forall c :: c in w ==> !IsSpace(c)
    requires rest == [] || IsSpace(rest[0])
    ensures Word(w + rest) == w
  {
    if w != [] {
      assert w[0] in w;
      assert (w + rest)[1..] == w[1..] + rest;
      WordOfPrefix(w[1..], rest);
    } else {
      assert w + rest == rest;
    }
  }

  /** A text beginning with the platform word `iOS,` followed by a blank or nothing has platform
      code `2`. */
  lemma {:induction false} TypePhoneOfIos(x: string)
    requires StartsWith(x, "iOS,") && (|x| == 4 || IsSpace(x[4]))
    ensures TypePhone(x) == Ok("2")
  {
    assert StartsWith(x, "iOS");
    ContainsAt(x, "iOS", 0);
    LeadingWordReplaced(x, "iOS,", "2");
  }

  /** A text without `iOS` beginning with the platform word `Android,` followed by a blank or
      nothing has platform code `1`. */
  lemma {:induction false} TypePhoneOfAndroid(x: string)
    requires !Contains(x, "iOS")
    requires StartsWith(x, "Android,") && (|x| == 8 || IsSpace(x[8]))
    ensures TypePhone(x) == Ok("1")
  {
    LeadingWordReplaced(x, "Android,", "1");
  }

  /** `user_phone_details_id_2`: the platform code followed by the second token of the text;
      IndexError when either is missing. */
  function PhoneId2(x: string): Result<string> {
    match TypePhone(x)
    case Err(e) => Err(e)
    case Ok(t) =>
      match Token(x, 1)
      case Err(e) => Err(e)
      case Ok(v) => Ok(t + v)
  }

  /** The second identifier fails exactly on texts with fewer than two tokens; otherwise it is the
      platform code followed by the second token. */
  lemma {:induction false} PhoneId2Spec(x: string)
    ensures PhoneId2(x).Err? <==> |Tokens(x)| < 2
    ensures PhoneId2(x).Ok? ==> TypePhone(x).Ok? && PhoneId2(x).value == TypePhone(x).value + Tokens(x)[1]
  {
    TypePhoneDefined(x);
    TokensNonEmpty(x);
  }
}
