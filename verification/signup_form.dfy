/**
 * The sign-up page: password-strength scoring and the field rules, then the page
 * state whose validators keep one validity flag per field, the button that is
 * disabled while any flag is false, and the submit gate that builds the request.
 */
module SignupRules {
  import opened Text
  import opened Patterns

  // ---------------------------------------------------------------- strength

  predicate HasLower(p: string) { exists i :: 0 <= i < |p| && 'a' <= p[i] <= 'z' }
  predicate HasUpper(p: string) { exists i :: 0 <= i < |p| && 'A' <= p[i] <= 'Z' }
  predicate HasDigit(p: string) { exists i :: 0 <= i < |p| && '0' <= p[i] <= '9' }

  /** The class [^A-Za-z0-9]. */
  predicate IsOther(c: char)
  {
    !('a' <= c <= 'z') && !('A' <= c <= 'Z') && !('0' <= c <= '9')
  }

  predicate HasOther(p: string) { exists i :: 0 <= i < |p| && IsOther(p[i]) }

  function Bit(b: bool): (r: nat)
    ensures r <= 1 && (r == 1 <==> b)
  {
    if b then 1 else 0
  }

  /** How many of the four character classes the password uses. */
  function Classes(p: string): (r: nat)
    ensures r <= 4
    ensures r == 0 <==> p == []
  {
    if p != [] then
      assert HasLower(p) || HasUpper(p) || HasDigit(p) || HasOther(p) by {
        if !IsOther(p[0]) {
          if 'a' <= p[0] <= 'z' { assert HasLower(p); }
          else if 'A' <= p[0] <= 'Z' { assert HasUpper(p); }
          else { assert HasDigit(p); }
        } else {
          assert HasOther(p);
        }
      }
      Bit(HasLower(p)) + Bit(HasUpper(p)) + Bit(HasDigit(p)) + Bit(HasOther(p))
    else
      Bit(HasLower(p)) + Bit(HasUpper(p)) + Bit(HasDigit(p)) + Bit(HasOther(p))
  }

  /** calculatePasswordStrength's score: one point for length >= 8, one more for
      length >= 12, and one per character class used. */
  function Strength(p: string): (r: nat)
    ensures r <= 6
    ensures p != [] ==> r >= 1
    ensures |p| < 8 ==> r <= 4
  {
    Bit(|p| >= 8) + Bit(|p| >= 12) + Classes(p)
  }

  datatype Level = Weak | Fair | Good | Strong

  /** The level boundaries: weak up to 2, fair at 3, good at 4, strong from 5. */
  function LevelOf(score: int): (l: Level)
    ensures l == Weak <==> score <= 2
    ensures l == Fair <==> score == 3
    ensures l == Good <==> score == 4
    ensures l == Strong <==> score >= 5
  {
    if score <= 2 then Weak else if score <= 3 then Fair else if score <= 4 then Good else Strong
  }

  function LevelRank(l: Level): nat
  {
    match l
    case Weak => 0
    case Fair => 1
    case Good => 2
    case Strong => 3
  }

  /** A higher score never gives a lower level. */
  lemma LevelMonotone(a: int, b: int)
    requires a <= b
    ensures LevelRank(LevelOf(a)) <= LevelRank(LevelOf(b))
  {
  }

  /** validatePassword's verdict: non-empty, at least eight characters, and rated good
      or strong. */
  predicate PasswordAccepted(p: string)
  {
    if |p| == 0 then false
    else if |p| < 8 then false
    else LevelOf(Strength(p)) == Strong || LevelOf(Strength(p)) == Good
  }

  /** The verdict in terms of the score, and what it implies about the character mix:
      an accepted password uses at least two classes, and three when it is shorter than
      twelve characters. */
  lemma PasswordAcceptedIff(p: string)
    ensures PasswordAccepted(p) <==> |p| >= 8 && Strength(p) >= 4
    ensures PasswordAccepted(p) ==> Classes(p) >= 2
    ensures PasswordAccepted(p) && |p| < 12 ==> Classes(p) >= 3
  {
  }

  /** Appending characters never lowers the score. */
  lemma StrengthMonotone(p: string, q: string)
    ensures Strength(p) <= Strength(p + q)
  {
    var s := p + q;
    assert forall i :: 0 <= i < |p| ==> s[i] == p[i];
    if HasLower(p) {
      var i :| 0 <= i < |p| && 'a' <= p[i] <= 'z';
      assert 'a' <= s[i] <= 'z';
    }
    if HasUpper(p) {
      var i :| 0 <= i < |p| && 'A' <= p[i] <= 'Z';
      assert 'A' <= s[i] <= 'Z';
    }
    if HasDigit(p) {
      var i :| 0 <= i < |p| && '0' <= p[i] <= '9';
      assert '0' <= s[i] <= '9';
    }
    if HasOther(p) {
      var i :| 0 <= i < |p| && IsOther(p[i]);
      assert IsOther(s[i]);
    }
  }

  // ---------------------------------------------------------------- field rules

  /** validateNickname's verdict on the raw input: the trimmed value is non-empty and
      matches the nickname pattern. */
  predicate NicknameAccepted(v: string)
  {
    var t := Trim(v);
    |t| != 0 && NicknamePattern(t)
  }

  /** validateEmail's verdict on the raw input. */
  predicate EmailAccepted(v: string)
  {
    var t := Trim(v);
    |t| != 0 && IsEmail(t)
  }

  /** validatePassword's checks in order: empty, shorter than eight, then the level. */
  method CheckPassword(v: string) returns (ok: bool)
    ensures ok == PasswordAccepted(v)
    ensures ok ==> |v| >= 8 && Strength(v) >= 4
  {
    if |v| == 0 {
      ok := false;
    } else if |v| < 8 {
      ok := false;
    } else {
      var level := LevelOf(Strength(v));
      ok := level == Strong || level == Good;
    }
  }

  /** validateConfirmPassword's verdict. */
  predicate ConfirmAccepted(password: string, confirm: string)
  {
    if |confirm| == 0 then false else password == confirm
  }

}

/** The sign-up page's state: the inputs, one validity flag per field, and the button. */
module SignupPage {
  import opened Wrappers
  import opened Text
  import opened Patterns
  import opened SignupRules
  import Accounts

  class SignupForm {
    var nickname: string
    var email: string
    var password: string
    var confirmPassword: string
    var nicknameValid: bool
    var emailValid: bool
    var passwordValid: bool
    var confirmValid: bool
    var termsAgreed: bool
    /** The sign-up button's disabled attribute. */
    var signupDisabled: bool

    /** isFormValid. */
    predicate IsFormValid()
      reads this`nicknameValid, this`emailValid, this`passwordValid, this`confirmValid, this`termsAgreed
    {
      nicknameValid && emailValid && passwordValid && confirmValid && termsAgreed
    }

    /** The button is disabled exactly while the form is invalid. */
    predicate ButtonAgrees()
      reads this`signupDisabled, this`nicknameValid, this`emailValid, this`passwordValid,
            this`confirmValid, this`termsAgreed
    {
      signupDisabled == !IsFormValid()
    }

    /** The nickname flag may be false for an accepted input (the server reported the
        nickname as taken), but is never true for a rejected one. */
    predicate NicknameAgrees()
      reads this`nickname, this`nicknameValid
    {
      nicknameValid ==> NicknameAccepted(nickname)
    }

    /** As for the nickname. */
    predicate EmailAgrees()
      reads this`email, this`emailValid
    {
      emailValid ==> EmailAccepted(email)
    }

    predicate PasswordAgrees()
      reads this`password, this`passwordValid
    {
      passwordValid == PasswordAccepted(password)
    }

    predicate ConfirmAgrees()
      reads this`password, this`confirmPassword, this`confirmValid
    {
      confirmValid == ConfirmAccepted(password, confirmPassword)
    }

    /** The button mirrors the flags, and no flag is true for an input that fails its rule. */
    predicate Valid()
      reads this
    {
      ButtonAgrees() && NicknameAgrees() && EmailAgrees() && PasswordAgrees() && ConfirmAgrees()
    }

    /** The freshly loaded page: empty inputs, every flag false, the button disabled. */
    constructor ()
      ensures Valid()
      ensures nickname == [] && email == [] && password == [] && confirmPassword == []
      ensures !nicknameValid && !emailValid && !passwordValid && !confirmValid && !termsAgreed
      ensures signupDisabled
    {
      nickname, email, password, confirmPassword := [], [], [], [];
      nicknameValid, emailValid, passwordValid, confirmValid, termsAgreed := false, false, false, false, false;
      signupDisabled := true;
    }

    /** updateSignupButton. */
    method UpdateSignupButton()
      modifies this`signupDisabled
      ensures signupDisabled == !IsFormValid()
    {
      signupDisabled := !IsFormValid();
    }

    /** An input event on the nickname field, then validateNickname. */
    method InputNickname(v: string)
      requires Valid()
      modifies this`nickname, this`nicknameValid, this`signupDisabled
      ensures Valid()
      ensures nickname == v && nicknameValid == NicknameAccepted(v)
    {
      nickname := v;
      var t := Trim(v);
      if |t| == 0 {
        nicknameValid := false;
      } else if !NicknamePattern(t) {
        nicknameValid := false;
      } else {
        nicknameValid := true;
      }
      UpdateSignupButton();
    }

    /** An input event on the e-mail field, then validateEmail. */
    method InputEmail(v: string)
      requires Valid()
      modifies this`email, this`emailValid, this`signupDisabled
      ensures Valid()
      ensures email == v && emailValid == EmailAccepted(v)
    {
      email := v;
      var t := Trim(v);
      if |t| == 0 {
        emailValid := false;
      } else if !IsEmail(t) {
        emailValid := false;
      } else {
        emailValid := true;
      }
      UpdateSignupButton();
    }

    /** An input event on the confirmation field, then validateConfirmPassword. */
    method InputConfirmPassword(v: string)
      requires Valid()
      modifies this`confirmPassword, this`confirmValid, this`signupDisabled
      ensures Valid()
      ensures confirmPassword == v && confirmValid == ConfirmAccepted(password, v)
    {
      confirmPassword := v;
      ValidateConfirmPassword();
    }

    /** validateConfirmPassword. */
    method ValidateConfirmPassword()
      modifies this`confirmValid, this`signupDisabled
      ensures confirmValid == ConfirmAccepted(password, confirmPassword)
      ensures signupDisabled == !IsFormValid()
    {
      if |confirmPassword| == 0 {
        confirmValid := false;
      } else if password != confirmPassword {
        confirmValid := false;
      } else {
        confirmValid := true;
      }
      UpdateSignupButton();
    }

    /** An input event on the password field, then validatePassword, which re-checks a
        non-empty confirmation. An empty confirmation keeps its (false) flag. */
    method InputPassword(v: string)
      requires Valid()
      modifies this`password, this`passwordValid, this`confirmValid, this`signupDisabled
      ensures Valid()
      ensures password == v && passwordValid == PasswordAccepted(v)
      ensures confirmValid == ConfirmAccepted(v, confirmPassword)
      ensures |confirmPassword| == 0 ==> confirmValid == old(confirmValid)
    {
      var ok := CheckPassword(v);
      // validateConfirmPassword, when the confirmation is non-empty
      var confirmOk := confirmValid;
      if |confirmPassword| > 0 {
        confirmOk := v == confirmPassword;
      }
      password, passwordValid, confirmValid := v, ok, confirmOk;
      UpdateSignupButton();
    }

    /** A change event on the terms checkbox, then validateTerms. */
    method ChangeTerms(checked: bool)
      requires Valid()
      modifies this`termsAgreed, this`signupDisabled
      ensures Valid()
      ensures termsAgreed == checked
    {
      termsAgreed := checked;
      UpdateSignupButton();
    }

    /** checkNicknameAvailability with the server's reply: None when the request fails,
        otherwise whether the nickname is free. A value failing the pattern sends no
        request and changes nothing. */
    method NicknameAvailability(reply: Option<bool>)
      requires Valid()
      modifies this`nicknameValid, this`signupDisabled
      ensures Valid()
      ensures !NicknameAccepted(nickname) || reply.None? ==> nicknameValid == old(nicknameValid)
      ensures NicknameAccepted(nickname) && reply.Some? ==> nicknameValid == reply.value
    {
      var t := Trim(nickname);
      if |t| == 0 || !NicknamePattern(t) {
        return;
      }
      if reply.Some? {
        nicknameValid := reply.value;
      }
      UpdateSignupButton();
    }

    /** checkEmailAvailability with the server's reply, as for the nickname. */
    method EmailAvailability(reply: Option<bool>)
      requires Valid()
      modifies this`emailValid, this`signupDisabled
      ensures Valid()
      ensures !EmailAccepted(email) || reply.None? ==> emailValid == old(emailValid)
      ensures EmailAccepted(email) && reply.Some? ==> emailValid == reply.value
    {
      var t := Trim(email);
      if |t| == 0 || !IsEmail(t) {
        return;
      }
      if reply.Some? {
        emailValid := reply.value;
      }
      UpdateSignupButton();
    }

    /** handleSignup's gate: nothing is sent unless every flag is true; otherwise the
        request carries the trimmed nickname and e-mail and the passwords as typed. */
    method HandleSignup() returns (r: Option<Accounts.SignupRequest>)
      ensures r.Some? <==> IsFormValid()
      ensures r.Some? ==> r.value == Accounts.SignupRequest(Trim(nickname), Trim(email), password, confirmPassword)
    {
      if !IsFormValid() {
        return None;
      }
      r := Some(Accounts.SignupRequest(Trim(nickname), Trim(email), password, confirmPassword));
    }
  }

  /** Whatever the page sends is well formed: the nickname and e-mail match their
      patterns, the password is accepted and the confirmation equals it, so the server's
      mismatch check never fires for a request from this page. */
  lemma SentRequestWellFormed(f: SignupForm, req: Accounts.SignupRequest)
    requires f.Valid() && f.IsFormValid()
    requires req == Accounts.SignupRequest(Trim(f.nickname), Trim(f.email), f.password, f.confirmPassword)
    ensures NicknamePattern(req.nickname) && EmailPattern(req.email)
    ensures PasswordAccepted(req.password) && req.password == req.confirmPassword
    ensures Trim(req.nickname) == req.nickname && Trim(req.email) == req.email
  {
    EmailPatternIff(req.email);
    TrimIdempotent(f.nickname);
    TrimIdempotent(f.email);
  }
}
