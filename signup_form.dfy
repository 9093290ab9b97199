/** The sign-up form component (frontend/src/components/SignupForm.js):
    the email and password checks, the per-field error flags kept while
    typing, and the full check on submit. */
module SignupForm {
  import opened Common

  /** `[^\s@]`. */
  predicate EmailChar(c: char) {
    !IsSpace(c) && c != '@'
  }

  predicate AllEmailChars(s: string) {
    forall k :: 0 <= k < |s| ==> EmailChar(s[k])
  }

  /** What the form's anchored email regular expression accepts, stated as the
      decomposition it describes: a non-empty local part, '@', and a
      domain with a '.' that has at least one character on each side; no
      whitespace and no other '@' anywhere. */
  ghost predicate EmailPattern(s: string) {
    exists i, k ::
      && 0 < i && i + 1 < k && k + 1 < |s|
      && s[i] == '@' && s[k] == '.'
      && AllEmailChars(s[..i]) && AllEmailChars(s[i + 1..])
  }

  /** The states of a left-to-right scan for the pattern. */
  datatype ScanState =
    | LocalStart   // nothing read
    | InLocal      // a non-empty local part
    | DomainStart  // just read the '@'
    | InDomain     // a non-empty domain, no '.' yet past its first character
    | AfterDot     // the last character is such a '.'
    | Complete     // such a '.' followed by at least one character
    | Rejected

  function Step(st: ScanState, c: char): ScanState {
    if IsSpace(c) then Rejected
    else
      match st
      case LocalStart => if c == '@' then Rejected else InLocal
      case InLocal => if c == '@' then DomainStart else InLocal
      case DomainStart => if c == '@' then Rejected else InDomain
      case InDomain => if c == '@' then Rejected else if c == '.' then AfterDot else InDomain
      case AfterDot => if c == '@' then Rejected else Complete
      case Complete => if c == '@' then Rejected else Complete
      case Rejected => Rejected
  }

  function Scan(st: ScanState, s: string): ScanState {
    if s == [] then st else Step(Scan(st, s[..|s| - 1]), s[|s| - 1])
  }

  /** `isValidEmail`. */
  function IsValidEmail(email: string): bool {
    Scan(LocalStart, email) == Complete
  }

  lemma {:induction false} ScanAppend(st: ScanState, u: string, v: string)
    ensures Scan(st, u + v) == Scan(Scan(st, u), v)
    decreases |v|
  {
    if v == [] {
      assert u + v == u;
    } else {
      assert (u + v)[..|u + v| - 1] == u + v[..|v| - 1];
      ScanAppend(st, u, v[..|v| - 1]);
    }
  }

  /** From the local states the scan either stays in the local part, with
      only `[^\s@]` characters read, or has read exactly one '@' after a
      non-empty local part. */
  lemma {:induction false} ScanSplit(s: string)
    ensures Scan(LocalStart, s) == LocalStart ==> s == []
    ensures Scan(LocalStart, s) == InLocal ==> s != [] && AllEmailChars(s)
    ensures Scan(LocalStart, s) in {DomainStart, InDomain, AfterDot, Complete} ==>
              exists i :: 0 < i < |s| && s[i] == '@' && AllEmailChars(s[..i])
                          && Scan(DomainStart, s[i + 1..]) == Scan(LocalStart, s)
  {
    if s != [] {
      var s', c := s[..|s| - 1], s[|s| - 1];
      ScanSplit(s');
      var before := Scan(LocalStart, s');
      if before in {DomainStart, InDomain, AfterDot, Complete} {
        var i :| 0 < i < |s'| && s'[i] == '@' && AllEmailChars(s'[..i]) && Scan(DomainStart, s'[i + 1..]) == before;
        assert s[i + 1..] == s'[i + 1..] + [c];
        ScanAppend(DomainStart, s'[i + 1..], [c]);
        assert s[..i] == s'[..i];
      } else if before == InLocal && c == '@' {
        var i := |s'|;
        assert s[..i] == s';
        assert s[i + 1..] == [];
      } else if before == InLocal || before == LocalStart {
        assert s == s' + [c];
      }
    }
  }

  /** What each domain state says about the domain read so far. */
  lemma {:induction false} DomainSound(w: string)
    ensures Scan(DomainStart, w) != Rejected ==> AllEmailChars(w)
    ensures Scan(DomainStart, w) in {InDomain, AfterDot, Complete} ==> |w| >= 1
    ensures Scan(DomainStart, w) == AfterDot ==> |w| >= 2 && w[|w| - 1] == '.'
    ensures Scan(DomainStart, w) == Complete ==> exists k :: 1 <= k && k + 1 < |w| && w[k] == '.'
    ensures Scan(DomainStart, w) in {DomainStart, InDomain, AfterDot, Complete, Rejected}
  {
    if w != [] {
      var w', c := w[..|w| - 1], w[|w| - 1];
      DomainSound(w');
      assert w == w' + [c];
      if Scan(DomainStart, w) == Complete && Scan(DomainStart, w') == Complete {
        var k :| 1 <= k && k + 1 < |w'| && w'[k] == '.';
        assert w[k] == '.';
      }
      if Scan(DomainStart, w) == Complete && Scan(DomainStart, w') == AfterDot {
        assert w[|w'| - 1] == '.';
      }
    }
  }

  /** A domain of `[^\s@]` characters with a '.' past its first character
      and before its last one drives the scan to `Complete`. */
  lemma {:induction false} DomainComplete(w: string)
    requires AllEmailChars(w)
    ensures w != [] ==> Scan(DomainStart, w) in {InDomain, AfterDot, Complete}
    ensures w != [] && w[|w| - 1] == '.' && |w| >= 2 ==> Scan(DomainStart, w) in {AfterDot, Complete}
    ensures (exists k :: 1 <= k && k + 1 < |w| && w[k] == '.') ==> Scan(DomainStart, w) == Complete
  {
    if w != [] {
      var w', c := w[..|w| - 1], w[|w| - 1];
      assert w == w' + [c];
      assert AllEmailChars(w') by {
        forall k | 0 <= k < |w'| ensures EmailChar(w'[k]) { assert w'[k] == w[k]; }
      }
      assert EmailChar(c);
      DomainComplete(w');
      if exists k :: 1 <= k && k + 1 < |w| && w[k] == '.' {
        var k :| 1 <= k && k + 1 < |w| && w[k] == '.';
        if k + 1 < |w'| {
          assert w'[k] == '.';
        } else {
          assert w'[|w'| - 1] == '.';
        }
      }
    }
  }

  /** A non-empty local part of `[^\s@]` characters leaves the scan in `InLocal`. */
  lemma {:induction false} LocalComplete(l: string)
    requires l != [] && AllEmailChars(l)
    ensures Scan(LocalStart, l) == InLocal
  {
    var l', c := l[..|l| - 1], l[|l| - 1];
    if l' != [] {
      assert AllEmailChars(l') by {
        forall k | 0 <= k < |l'| ensures EmailChar(l'[k]) { assert l'[k] == l[k]; }
      }
      LocalComplete(l');
    }
  }

  /** Every string the scan accepts has the pattern's shape. */
  lemma EmailSound(s: string)
    requires IsValidEmail(s)
    ensures EmailPattern(s)
  {
    ScanSplit(s);
    var i :| 0 < i < |s| && s[i] == '@' && AllEmailChars(s[..i]) && Scan(DomainStart, s[i + 1..]) == Complete;
    var w := s[i + 1..];
    DomainSound(w);
    var k :| 1 <= k && k + 1 < |w| && w[k] == '.';
    assert s[i + 1 + k] == '.';
  }

  /** Every string of the pattern's shape is accepted by the scan. */
  lemma EmailComplete(s: string, i: int, k: int)
    requires && 0 < i && i + 1 < k && k + 1 < |s|
             && s[i] == '@' && s[k] == '.'
             && AllEmailChars(s[..i]) && AllEmailChars(s[i + 1..])
    ensures IsValidEmail(s)
  {
    var l, w := s[..i], s[i + 1..];
    assert w[k - i - 1] == '.';
    LocalComplete(l);
    DomainComplete(w);
    assert s == l + [s[i]] + w;
    ScanAppend(LocalStart, l + [s[i]], w);
    ScanAppend(LocalStart, l, [s[i]]);
    assert Scan(LocalStart, l + [s[i]]) == DomainStart;
  }

  /** The scan accepts exactly the strings the pattern describes. */
  lemma IsValidEmailIff(s: string)
    ensures IsValidEmail(s) <==> EmailPattern(s)
  {
    if IsValidEmail(s) {
      EmailSound(s);
    }
    if EmailPattern(s) {
      var i, k :| && 0 < i && i + 1 < k && k + 1 < |s|
                  && s[i] == '@' && s[k] == '.'
                  && AllEmailChars(s[..i]) && AllEmailChars(s[i + 1..]);
      EmailComplete(s, i, k);
    }
  }

  /** `/\d/.test(s)`, as a scan. */
  function HasDigit(s: string): (r: bool)
    ensures r <==> exists k :: 0 <= k < |s| && IsDigit(s[k])
  {
    if s == [] then false
    else if IsDigit(s[0]) then true
    else
      var r := HasDigit(s[1..]);
      assert forall k :: 0 < k < |s| ==> s[k] == s[1..][k - 1];
      r
  }

  /** `/[A-Z]/.test(s)`, as a scan. */
  function HasUpper(s: string): (r: bool)
    ensures r <==> exists k :: 0 <= k < |s| && IsUpper(s[k])
  {
    if s == [] then false
    else if IsUpper(s[0]) then true
    else
      var r := HasUpper(s[1..]);
      assert forall k :: 0 < k < |s| ==> s[k] == s[1..][k - 1];
      r
  }

  /** `isValidPassword`: a digit, an upper-case letter, and at least eight
      characters. */
  function IsValidPassword(p: string): (r: bool)
    ensures r <==> |p| >= 8 && (exists k :: 0 <= k < |p| && IsDigit(p[k]))
                            && (exists k :: 0 <= k < |p| && IsUpper(p[k]))
  {
    HasDigit(p) && HasUpper(p) && |p| >= 8
  }

  /** The form's fields. */
  datatype Field = FirstName | LastName | Email | Password | ConfirmPassword | Team | Position | JerseyNumber

  const AllFields: set<Field> := {FirstName, LastName, Email, Password, ConfirmPassword, Team, Position, JerseyNumber}

  /** Setting one field of a form-wide map keeps it form-wide. */
  lemma UpdateKeepsFields<V>(m: map<Field, V>, f: Field, v: V)
    requires m.Keys == AllFields
    ensures m[f := v].Keys == AllFields
  {
    assert f in AllFields;
  }

  /** The error flags `handleSubmit` computes from the form data. */
  function SubmitErrors(data: map<Field, string>): (e: map<Field, bool>)
    requires data.Keys == AllFields
    ensures e.Keys == AllFields
    ensures e[FirstName] <==> data[FirstName] == ""
    ensures e[LastName] <==> data[LastName] == ""
    ensures e[Team] <==> data[Team] == ""
    ensures e[Position] <==> data[Position] == ""
    ensures e[JerseyNumber] <==> data[JerseyNumber] == ""
    ensures e[Email] <==> data[Email] == "" || !EmailPattern(data[Email])
    ensures e[Password] <==> data[Password] == "" || !IsValidPassword(data[Password])
    ensures e[ConfirmPassword] <==> data[ConfirmPassword] == "" || data[Password] != data[ConfirmPassword]
  {
    IsValidEmailIff(data[Email]);
    map f | f in AllFields :: SubmitError(data, f)
  }

  /** The flag `handleSubmit` computes for one field. */
  function SubmitError(data: map<Field, string>, f: Field): bool
    requires data.Keys == AllFields && f in AllFields
  {
    match f
    case Email => !Truthy(data[Email]) || !IsValidEmail(data[Email])
    case Password => !Truthy(data[Password]) || !IsValidPassword(data[Password])
    case ConfirmPassword => !Truthy(data[ConfirmPassword]) || data[Password] != data[ConfirmPassword]
    case _ => !Truthy(data[f])
  }

  predicate AnyError(e: map<Field, bool>) {
    exists f :: f in e && e[f]
  }

  /** A submit goes ahead exactly when every field is filled in, the email
      matches the pattern, the password is strong enough and the
      confirmation equals it. */
  lemma SubmitProceedsIff(data: map<Field, string>)
    requires data.Keys == AllFields
    ensures !AnyError(SubmitErrors(data)) <==>
              && (forall f :: f in AllFields ==> data[f] != "")
              && EmailPattern(data[Email]) && IsValidPassword(data[Password])
              && data[ConfirmPassword] == data[Password]
  {
    var e := SubmitErrors(data);
    if !AnyError(e) {
      forall f | f in AllFields ensures data[f] != "" {
        assert !e[f];
        assert f in {FirstName, LastName, Team, Position, JerseyNumber} || f in {Email, Password, ConfirmPassword};
        if f == Password { assert IsValidPassword(data[Password]); }
      }
    }
  }

  /** The 0-99 range of the jersey input is an attribute of the input
      element only: on submit any non-empty jersey text passes. */
  lemma JerseyRangeNotChecked(data: map<Field, string>)
    requires data.Keys == AllFields && data[JerseyNumber] == "150"
    ensures !SubmitErrors(data)[JerseyNumber]
  {
  }

  /** The form component: its field values and error flags. */
  class SignupFormState {
    var formData: map<Field, string>
    var errors: map<Field, bool>

    ghost predicate Valid()
      reads this
    {
      formData.Keys == AllFields && errors.Keys == AllFields
    }

    constructor ()
      ensures Valid()
      ensures forall f :: f in AllFields ==> formData[f] == "" && !errors[f]
    {
      formData := map f | f in AllFields :: "";
      errors := map f | f in AllFields :: false;
    }

    /** `handleChange`: store the value, then update the flags. Email and
        password are flagged only when non-empty and invalid; the
        confirmation is compared with the other field's value before
        this change; any other field's flag is cleared. */
    method HandleChange(name: Field, value: string)
      requires Valid()
      modifies this
      ensures Valid()
      ensures formData == old(formData)[name := value]
      ensures name == Email ==> errors == old(errors)[Email := value != "" && !EmailPattern(value)]
      ensures name == Password ==>
                errors == old(errors)[Password := value != "" && !IsValidPassword(value)]
                                     [ConfirmPassword := old(formData)[ConfirmPassword] != ""
                                                         && value != old(formData)[ConfirmPassword]]
      ensures name == ConfirmPassword ==>
                errors == old(errors)[ConfirmPassword := value != "" && value != old(formData)[Password]]
      ensures name !in {Email, Password, ConfirmPassword} ==> errors == old(errors)[name := false]
    {
      var previous, flags := formData, errors;
      UpdateKeepsFields(previous, name, value);
      formData := previous[name := value];
      if name == Email {
        IsValidEmailIff(value);
        UpdateKeepsFields(flags, Email, Truthy(value) && !IsValidEmail(value));
        errors := flags[Email := Truthy(value) && !IsValidEmail(value)];
      } else if name == Password {
        var confirmFlag := Truthy(previous[ConfirmPassword]) && value != previous[ConfirmPassword];
        var passwordFlag := Truthy(value) && !IsValidPassword(value);
        UpdateKeepsFields(flags, Password, passwordFlag);
        UpdateKeepsFields(flags[Password := passwordFlag], ConfirmPassword, confirmFlag);
        errors := flags[Password := passwordFlag][ConfirmPassword := confirmFlag];
      } else if name == ConfirmPassword {
        UpdateKeepsFields(flags, ConfirmPassword, Truthy(value) && value != previous[Password]);
        errors := flags[ConfirmPassword := Truthy(value) && value != previous[Password]];
      } else {
        UpdateKeepsFields(flags, name, false);
        errors := flags[name := false];
      }
    }

    /** `handleSubmit`: recompute every flag and go ahead only when none
        is set. Going ahead only logs the data. */
    method HandleSubmit() returns (proceeds: bool)
      requires Valid()
      modifies this
      ensures Valid() && formData == old(formData)
      ensures errors == SubmitErrors(formData)
      ensures proceeds <==> !AnyError(errors)
    {
      var newErrors := SubmitErrors(formData);
      errors := newErrors;
      proceeds := true;
      if newErrors[FirstName] || newErrors[LastName] || newErrors[Email] || newErrors[Password]
         || newErrors[ConfirmPassword] || newErrors[Team] || newErrors[Position] || newErrors[JerseyNumber] {
        proceeds := false;
      }
    }
  }
}
