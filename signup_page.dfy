/** The sign-up page (frontend/src/pages/SignupPage.js): its own, looser,
    validation of the same eight fields, and the submit that calls the
    sign-up service only when nothing is flagged. */
module SignupPage {
  import opened Common
  import opened SignupForm

  /** `\S`. */
  predicate NonSpace(c: char) {
    !IsSpace(c)
  }

  /** A match of the page's email pattern (non-spaces, '@', non-spaces,
      '.', non-spaces) with its '@' at `p` and its '.' at `d`:
      from the character before the '@' to the one after the '.', nothing
      is a space, and at least one character lies between the two. */
  ghost predicate MatchWith(s: string, p: int, d: int) {
    && 1 <= p && p + 2 <= d && d + 1 < |s|
    && s[p] == '@' && s[d] == '.'
    && (forall k :: p - 1 <= k <= d + 1 ==> NonSpace(s[k]))
  }

  /** What the page's email test accepts: the pattern is not anchored,
      so a match anywhere in `s` will do. */
  ghost predicate LooseEmailPattern(s: string) {
    exists p, d :: MatchWith(s, p, d)
  }

  /** From `j` to the character after a '.' at `d`, nothing is a space. */
  ghost predicate DotRun(s: string, j: int, d: int) {
    0 <= j <= d && d + 1 < |s| && s[d] == '.' && forall k :: j <= k <= d + 1 ==> NonSpace(s[k])
  }

  /** From `j` on: a run of non-space characters reaching a '.' that is
      followed by a non-space character. */
  function DotAhead(s: string, j: nat): bool
    decreases |s| - j
  {
    if j + 1 >= |s| || !NonSpace(s[j]) then false
    else if s[j] == '.' && NonSpace(s[j + 1]) then true
    else DotAhead(s, j + 1)
  }

  /** The scan finds such a run exactly when one exists. */
  lemma {:induction false} DotAheadIff(s: string, j: nat)
    ensures DotAhead(s, j) <==> exists d :: DotRun(s, j, d)
    decreases |s| - j
  {
    if j + 1 < |s| && NonSpace(s[j]) {
      if s[j] == '.' && NonSpace(s[j + 1]) {
        assert DotRun(s, j, j);
      } else {
        DotAheadIff(s, j + 1);
        if DotAhead(s, j) {
          var d :| DotRun(s, j + 1, d);
          assert DotRun(s, j, d);
        }
        if exists d :: DotRun(s, j, d) {
          var d :| DotRun(s, j, d);
          assert d != j;
          assert DotRun(s, j + 1, d);
        }
      }
    }
  }

  /** A match whose '@' is at `p`. */
  predicate MatchAt(s: string, p: nat) {
    1 <= p && p + 1 < |s| && s[p] == '@' && NonSpace(s[p - 1]) && NonSpace(s[p + 1]) && DotAhead(s, p + 2)
  }

  /** Tries every '@' position from `p` on. */
  function SearchFrom(s: string, p: nat): (r: bool)
    ensures r <==> exists q :: p <= q < |s| && MatchAt(s, q)
    decreases |s| - p
  {
    if p >= |s| then false
    else MatchAt(s, p) || SearchFrom(s, p + 1)
  }

  /** The regular expression test of the page. */
  function LooseEmailTest(s: string): bool {
    SearchFrom(s, 1)
  }

  /** The search finds a match exactly when the pattern occurs. */
  lemma LooseEmailTestIff(s: string)
    ensures LooseEmailTest(s) <==> LooseEmailPattern(s)
  {
    if LooseEmailTest(s) {
      var p :| 1 <= p < |s| && MatchAt(s, p);
      DotAheadIff(s, p + 2);
      var d :| DotRun(s, p + 2, d);
      assert MatchWith(s, p, d);
    }
    if LooseEmailPattern(s) {
      var p, d :| MatchWith(s, p, d);
      assert DotRun(s, p + 2, d);
      DotAheadIff(s, p + 2);
      assert MatchAt(s, p);
    }
  }

  /** The page accepts every address the sign-up form accepts. */
  lemma LooserThanForm(s: string)
    ensures EmailPattern(s) ==> LooseEmailPattern(s)
  {
    if EmailPattern(s) {
      var i, k :| && 0 < i && i + 1 < k && k + 1 < |s|
                  && s[i] == '@' && s[k] == '.'
                  && AllEmailChars(s[..i]) && AllEmailChars(s[i + 1..]);
      forall j | i - 1 <= j <= k + 1
        ensures NonSpace(s[j])
      {
        if j < i {
          assert s[..i][j] == s[j];
        } else if j > i {
          assert s[i + 1..][j - i - 1] == s[j];
        }
      }
      assert MatchWith(s, i, k);
    }
  }

  /** The form's pattern admits no whitespace anywhere. */
  lemma EmailPatternHasNoSpace(s: string, j: int)
    requires EmailPattern(s) && 0 <= j < |s|
    ensures NonSpace(s[j])
  {
    var i, k :| && 0 < i && i + 1 < k && k + 1 < |s|
                && s[i] == '@' && s[k] == '.'
                && AllEmailChars(s[..i]) && AllEmailChars(s[i + 1..]);
    if j < i {
      assert s[..i][j] == s[j];
    } else if j > i {
      assert s[i + 1..][j - i - 1] == s[j];
    }
  }

  /** ... and more: an address inside surrounding text passes the page but
      not the form. */
  lemma StrictlyLooserThanForm()
    ensures LooseEmailPattern("see a@b.co now") && !EmailPattern("see a@b.co now")
  {
    var t := "see a@b.co now";
    assert MatchWith(t, 5, 7);
    if EmailPattern(t) {
      EmailPatternHasNoSpace(t, 3);
    }
  }

  function DigitValue(c: char): nat
    requires IsDigit(c)
  {
    c as int - '0' as int
  }

  predicate AllDigits(s: string) {
    forall k :: 0 <= k < |s| ==> IsDigit(s[k])
  }

  /** The decimal value of a string of digits. */
  function DigitsValue(s: string): (n: nat)
    requires AllDigits(s)
    ensures n > 0 <==> exists k :: 0 <= k < |s| && s[k] != '0'
  {
    if s == [] then 0
    else
      var prefix := s[..|s| - 1];
      assert forall k :: 0 <= k < |prefix| ==> prefix[k] == s[k];
      DigitsValue(prefix) * 10 + DigitValue(s[|s| - 1])
  }

  /** The number a jersey input holds, for the integer forms `[-]digits`;
      any other text is not read as an integer. */
  function ParseInteger(s: string): Option<int> {
    if |s| >= 2 && s[0] == '-' && AllDigits(s[1..]) then Some(0 - DigitsValue(s[1..]) as int)
    else if |s| >= 1 && AllDigits(s) then Some(DigitsValue(s))
    else None
  }

  /** `jerseyNumber < 0`, on the integer forms. */
  predicate BelowZero(s: string) {
    ParseInteger(s).Some? && ParseInteger(s).value < 0
  }

  /** A jersey number is below zero exactly when it is a minus sign
      followed by digits that are not all zero ("-0" is not below zero). */
  lemma BelowZeroIff(s: string)
    ensures BelowZero(s) <==>
              |s| >= 2 && s[0] == '-' && AllDigits(s[1..]) && exists k :: 1 <= k < |s| && s[k] != '0'
  {
    if |s| >= 2 && s[0] == '-' && AllDigits(s[1..]) {
      assert forall k :: 1 <= k < |s| ==> s[k] == s[1..][k - 1];
      if exists k :: 1 <= k < |s| && s[k] != '0' {
        var k :| 1 <= k < |s| && s[k] != '0';
        assert s[1..][k - 1] != '0';
      }
    } else if |s| >= 1 && AllDigits(s) {
      assert !IsDigit('-');
    }
  }

  /** The error flags of the page's `handleSubmit`. */
  function PageErrors(data: map<Field, string>): (e: map<Field, bool>)
    requires data.Keys == AllFields
    ensures e.Keys == AllFields
    ensures e[FirstName] <==> data[FirstName] == ""
    ensures e[LastName] <==> data[LastName] == ""
    ensures e[Team] <==> data[Team] == ""
    ensures e[Position] <==> data[Position] == ""
    ensures e[Email] <==> data[Email] == "" || !LooseEmailPattern(data[Email])
    ensures e[Password] <==> |data[Password]| < 6
    ensures e[ConfirmPassword] <==> data[Password] != data[ConfirmPassword]
    ensures e[JerseyNumber] <==> data[JerseyNumber] == "" || BelowZero(data[JerseyNumber])
  {
    LooseEmailTestIff(data[Email]);
    map f | f in AllFields :: PageError(data, f)
  }

  /** The flag the page's `handleSubmit` computes for one field. */
  function PageError(data: map<Field, string>, f: Field): bool
    requires data.Keys == AllFields && f in AllFields
  {
    match f
    case Email => !Truthy(data[Email]) || !LooseEmailTest(data[Email])
    case Password => !Truthy(data[Password]) || |data[Password]| < 6
    case ConfirmPassword => data[Password] != data[ConfirmPassword]
    case JerseyNumber => !Truthy(data[JerseyNumber]) || BelowZero(data[JerseyNumber])
    case _ => !Truthy(data[f])
  }

  /** Two empty passwords raise no confirmation error (the empty password
      itself is flagged), and the team 'None' is accepted. */
  lemma PageEdgeCases(data: map<Field, string>)
    requires data.Keys == AllFields
    requires data[Password] == "" && data[ConfirmPassword] == "" && data[Team] == "None"
    ensures !PageErrors(data)[ConfirmPassword] && PageErrors(data)[Password] && !PageErrors(data)[Team]
  {
  }

  /** The page: its form data, flags, message, and the data of every
      sign-up call it has made. */
  class SignupPageState {
    var formData: map<Field, string>
    var errors: map<Field, bool>
    /** `None` stands for `undefined`. */
    var errorMessage: Option<string>
    var signupCalls: seq<map<Field, string>>
    var navigatedToLogin: bool

    ghost predicate Valid()
      reads this
    {
      formData.Keys == AllFields && errors.Keys == AllFields
    }

    /** `{errorMessage && <Alert ...>}`: the alert shows only a truthy message. */
    predicate AlertShown()
      reads this
    {
      errorMessage.Some? && Truthy(errorMessage.value)
    }

    constructor ()
      ensures Valid() && errorMessage == Some("") && !AlertShown() && signupCalls == [] && !navigatedToLogin
      ensures forall f :: f in AllFields ==> formData[f] == "" && !errors[f]
    {
      formData := map f | f in AllFields :: "";
      errors := map f | f in AllFields :: false;
      errorMessage := Some("");
      signupCalls := [];
      navigatedToLogin := false;
    }

    /** `handleSubmit`. `thrown` is what the sign-up service does if it is
        called: `None` when it returns, or the string it throws. A string
        has no `message` property, so the page stores `undefined`. */
    method HandleSubmit(thrown: Option<string>)
      requires Valid()
      modifies this
      ensures Valid() && formData == old(formData)
      ensures errors == PageErrors(formData)
      ensures AnyError(errors) ==>
                && signupCalls == old(signupCalls) && errorMessage == Some("")
                && navigatedToLogin == old(navigatedToLogin)
      ensures !AnyError(errors) ==>
                && signupCalls == old(signupCalls) + [formData]
                && (thrown.None? ==> navigatedToLogin && errorMessage == Some(""))
                && (thrown.Some? ==> navigatedToLogin == old(navigatedToLogin) && errorMessage.None?)
      ensures !AlertShown()
    {
      errorMessage := Some("");
      var newErrors := PageErrors(formData);
      errors := newErrors;
      if newErrors[FirstName] || newErrors[LastName] || newErrors[Email] || newErrors[Password]
         || newErrors[ConfirmPassword] || newErrors[Team] || newErrors[Position] || newErrors[JerseyNumber] {
        return;
      }
      signupCalls := signupCalls + [formData];
      if thrown.None? {
        navigatedToLogin := true;
      } else {
        // `error.message` of a thrown string is undefined.
        errorMessage := None;
      }
    }
  }
}
