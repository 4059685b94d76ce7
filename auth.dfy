/** The sign-in page: the five password criteria shown while registering and
    the submit gate that decides between signing in, registering and nothing. */
module Auth {
  import opened Strings

  /** The five criteria, in the order the page lists them. */
  datatype Criteria = Criteria(
    minLength: bool,
    hasLowercase: bool,
    hasUppercase: bool,
    hasNumber: bool,
    hasSpecialChar: bool)

  /** The criteria before any password is typed: none holds. */
  const NoCriteria := Criteria(false, false, false, false, false)

  const MinPasswordLength := 8

  /** The class of the special-character test. */
  const SpecialChars := "!@#$%^&*(),.?\":{}|<>"

  predicate IsLowerAscii(c: char)
  {
    'a' <= c <= 'z'
  }

  predicate IsUpperAscii(c: char)
  {
    'A' <= c <= 'Z'
  }

  /** `\d` of JavaScript regular expressions: the ten ASCII digits only. */
  predicate IsDigit(c: char)
  {
    '0' <= c <= '9'
  }

  predicate IsSpecial(c: char)
  {
    c in SpecialChars
  }

  /** `/[...]/.test(s)`: some character of `s` is in the class `p`. */
  predicate AnyChar(s: string, p: char -> bool)
  {
    s != [] && (p(s[0]) || AnyChar(s[1..], p))
  }

  lemma {:induction false} AnyCharIff(s: string, p: char -> bool)
    ensures AnyChar(s, p) <==> exists i :: 0 <= i < |s| && p(s[i])
  {
    if s != [] {
      AnyCharIff(s[1..], p);
      if exists i :: 0 <= i < |s| && p(s[i]) {
        var i :| 0 <= i < |s| && p(s[i]);
        if i > 0 {
          assert s[1..][i - 1] == s[i];
        }
      }
      if exists i :: 0 <= i < |s[1..]| && p(s[1..][i]) {
        var i :| 0 <= i < |s[1..]| && p(s[1..][i]);
        assert s[i + 1] == s[1..][i];
      }
    }
  }

  /** The criteria of `handlePasswordChange` for one password; the length is
      JavaScript's, in UTF-16 code units. */
  function Evaluate(password: string): Criteria
  {
    Criteria(
      Utf16Length(password) >= MinPasswordLength,
      AnyChar(password, IsLowerAscii),
      AnyChar(password, IsUpperAscii),
      AnyChar(password, IsDigit),
      AnyChar(password, IsSpecial))
  }

  /** `Object.values(passwordCriteria).every(Boolean)`. */
  predicate AllHold(c: Criteria)
  {
    c.minLength && c.hasLowercase && c.hasUppercase && c.hasNumber && c.hasSpecialChar
  }

  /** A password the policy accepts. */
  predicate Strong(password: string)
  {
    AllHold(Evaluate(password))
  }

  /** Each criterion holds exactly when the password has the required length,
      counted in UTF-16 code units, or contains a character of the required class.
      Without astral characters the length is the number of characters. */
  lemma EvaluateSpec(password: string)
    ensures Evaluate(password).minLength <==> Utf16Length(password) >= 8
    ensures (forall i :: 0 <= i < |password| ==> !IsAstral(password[i])) ==>
      (Evaluate(password).minLength <==> |password| >= 8)
    ensures |password| >= 8 ==> Evaluate(password).minLength
    ensures |password| < 4 ==> !Evaluate(password).minLength
    ensures Evaluate(password).hasLowercase <==> exists i :: 0 <= i < |password| && 'a' <= password[i] <= 'z'
    ensures Evaluate(password).hasUppercase <==> exists i :: 0 <= i < |password| && 'A' <= password[i] <= 'Z'
    ensures Evaluate(password).hasNumber <==> exists i :: 0 <= i < |password| && '0' <= password[i] <= '9'
    ensures Evaluate(password).hasSpecialChar <==> exists i :: 0 <= i < |password| && password[i] in SpecialChars
  {
    Utf16LengthBounds(password);
    AnyCharIff(password, IsLowerAscii);
    AnyCharIff(password, IsUpperAscii);
    AnyCharIff(password, IsDigit);
    AnyCharIff(password, IsSpecial);
  }

  /** Two emoji count four code units: six characters meet the length criterion. */
  lemma AstralCharactersCountTwice()
    ensures |"😀😀aA1!"| == 6 && Evaluate("😀😀aA1!").minLength
  {
    var s := "😀😀aA1!";
    assert IsAstral(s[0]) && IsAstral(s[1]);
    assert Utf16Length(s[..0]) == 0;
    assert s[..1][..0] == s[..0];
    assert Utf16Length(s[..1]) == 2;
    assert s[..2][..1] == s[..1];
    assert Utf16Length(s[..2]) == 4;
    assert s[..3][..2] == s[..2];
    assert Utf16Length(s[..3]) >= 5;
    assert s[..4][..3] == s[..3];
    assert Utf16Length(s[..4]) >= 6;
    assert s[..5][..4] == s[..4];
    assert Utf16Length(s[..5]) >= 7;
    assert s[..6][..5] == s[..5] && s[..6] == s;
  }

  /** A password shorter than eight characters is refused whatever it contains. */
  lemma ShortPasswordRefused()
    ensures !Strong("Ab1!")
  {
    Utf16LengthBounds("Ab1!");
  }

  /** Eight lower-case letters are refused: there is no capital, digit or special character. */
  lemma OneClassRefused()
    ensures !Strong("abcdefgh")
  {
    var s := "abcdefgh";
    AnyCharIff(s, IsUpperAscii);
    assert forall i :: 0 <= i < |s| ==> !IsUpperAscii(s[i]);
  }

  /** A capital, lower-case letters, a digit and a special character in eight characters are accepted. */
  lemma MixedPasswordAccepted()
    ensures Strong("Abcdef1!")
  {
    var s := "Abcdef1!";
    Utf16LengthBounds(s);
    AnyCharIff(s, IsLowerAscii);
    AnyCharIff(s, IsUpperAscii);
    AnyCharIff(s, IsDigit);
    AnyCharIff(s, IsSpecial);
    assert IsLowerAscii(s[1]) && IsUpperAscii(s[0]) && IsDigit(s[6]) && IsSpecial(s[7]);
  }

  /** What a submit asks of the authentication service. */
  datatype AuthRequest = NoRequest | Login(email: string, password: string) | Register(name: string, email: string, password: string)

  class AuthForm {
    var isLoginView: bool
    var name: string
    var email: string
    var password: string
    /** The checklist state, updated only by password changes in the register view. */
    var criteria: Criteria

    constructor ()
      ensures isLoginView && name == "" && email == "" && password == "" && criteria == NoCriteria
    {
      isLoginView := true;
      name := "";
      email := "";
      password := "";
      criteria := NoCriteria;
    }

    /** The Login and Register tabs: only the view changes. */
    method SetLoginView(login: bool)
      modifies this
      ensures isLoginView == login
      ensures name == old(name) && email == old(email) && password == old(password) && criteria == old(criteria)
    {
      isLoginView := login;
    }

    method SetName(value: string)
      modifies this
      ensures name == value
      ensures isLoginView == old(isLoginView) && email == old(email) && password == old(password) && criteria == old(criteria)
    {
      name := value;
    }

    method SetEmail(value: string)
      modifies this
      ensures email == value
      ensures isLoginView == old(isLoginView) && name == old(name) && password == old(password) && criteria == old(criteria)
    {
      email := value;
    }

    /** `handlePasswordChange`: the password is stored; the criteria are
        recomputed in the register view and left as they were in the login view. */
    method PasswordChange(value: string)
      modifies this
      ensures password == value
      ensures criteria == if old(isLoginView) then old(criteria) else Evaluate(value)
      ensures isLoginView == old(isLoginView) && name == old(name) && email == old(email)
    {
      password := value;
      if !isLoginView {
        criteria := Evaluate(value);
      }
    }

    /** `handleSubmit` as written: the login view signs in without looking at the
        criteria; the register view registers when the stored criteria all hold. */
    method Submit() returns (req: AuthRequest)
      ensures isLoginView ==> req == Login(email, password)
      ensures !isLoginView ==> req == if AllHold(criteria) then Register(name, email, password) else NoRequest
    {
      if isLoginView {
        req := Login(email, password);
      } else if AllHold(criteria) {
        req := Register(name, email, password);
      } else {
        req := NoRequest;
      }
    }

    /** The register gate as intended: it checks the password being submitted. */
    method SubmitChecked() returns (req: AuthRequest)
      ensures isLoginView ==> req == Login(email, password)
      ensures !isLoginView ==> req == if Strong(password) then Register(name, email, password) else NoRequest
      ensures req.Register? ==> Strong(req.password)
    {
      if isLoginView {
        req := Login(email, password);
      } else if Strong(password) {
        req := Register(name, email, password);
      } else {
        req := NoRequest;
      }
    }
  }

  /** The stale checklist, event by event: name and e-mail filled in, a strong
      password typed in the register view, the login tab, a one-letter password,
      the register tab again. The gate as written then registers the one-letter
      password. */
  method StaleCriteriaScenario() returns (req: AuthRequest)
    ensures req == Register("Ana", "ana@example.com", "x")
    ensures !Strong("x")
  {
    var form := new AuthForm();
    form.SetLoginView(false);
    form.SetName("Ana");
    form.SetEmail("ana@example.com");
    form.PasswordChange("Abcdef1!");
    MixedPasswordAccepted();
    form.SetLoginView(true);
    form.PasswordChange("x");
    form.SetLoginView(false);
    req := form.Submit();
  }

  /** The same events with the intended gate: nothing is registered. */
  method StaleCriteriaScenarioChecked() returns (req: AuthRequest)
    ensures req == NoRequest
  {
    var form := new AuthForm();
    form.SetLoginView(false);
    form.SetName("Ana");
    form.SetEmail("ana@example.com");
    form.PasswordChange("Abcdef1!");
    form.SetLoginView(true);
    form.PasswordChange("x");
    form.SetLoginView(false);
    req := form.SubmitChecked();
  }
}
