/**
 * Account checks of src/ContentManager.backup.tsx: the registration form's
 * validation and outcome (registerUser) and the outcome of loginUser. The
 * password digest is a parameter; so are the answers of the document
 * store: a lookup that failed is None, and `saved` says whether the writes
 * went through.
 */
module Accounts {
  import opened Wrappers

  datatype User = User(id: string, username: string, passwordHash: string, email: Option<string>, createdAt: string)

  datatype RegisterForm = RegisterForm(username: string, password: string, confirmPassword: string)

  const MinPasswordLength := 6

  const CredentialsRequired := "Usuário e senha são obrigatórios"
  const PasswordsDiffer := "Senhas não coincidem"
  const PasswordTooShort := "Senha deve ter pelo menos 6 caracteres"
  const UsernameTaken := "Nome de usuário já existe"
  const UserNotFound := "Usuário não encontrado"
  const WrongPassword := "Senha incorreta"
  const CreateAccountFailed := "Erro ao criar conta. Tente novamente."
  const SignInFailed := "Erro ao entrar. Tente novamente."

  /**
   * The length JavaScript reports for a string: its count of UTF-16 code
   * units, where a character beyond U+FFFF takes a surrogate pair.
   */
  function Utf16Length(s: string): (n: nat)
    ensures |s| <= n <= 2 * |s|
  {
    if s == [] then 0
    else Utf16Length(s[..|s| - 1]) + (if s[|s| - 1] as int > 0xFFFF then 2 else 1)
  }

  /** One character is one code unit, or a surrogate pair beyond U+FFFF. */
  lemma Utf16LengthOne(c: char)
    ensures Utf16Length([c]) == if c as int > 0xFFFF then 2 else 1
  {
    assert [c][..0] == [];
  }

  /** The length of two strings laid end to end is the sum of their lengths; with Utf16LengthOne this fixes the value of every string. */
  lemma {:induction false} Utf16LengthConcat(a: string, b: string)
    ensures Utf16Length(a + b) == Utf16Length(a) + Utf16Length(b)
  {
    if b == [] {
      assert a + b == a;
    } else {
      var n := |b| - 1;
      Utf16LengthConcat(a, b[..n]);
      assert (a + b)[..|a + b| - 1] == a + b[..n];
    }
  }

  /** Counting code units agrees with counting characters exactly when every character lies in the basic plane. */
  lemma {:induction false} Utf16LengthOfBasicPlane(s: string)
    ensures Utf16Length(s) == |s| <==> forall i :: 0 <= i < |s| ==> s[i] as int <= 0xFFFF
  {
    if s != [] {
      var n := |s| - 1;
      Utf16LengthOfBasicPlane(s[..n]);
      assert forall i :: 0 <= i < n ==> s[..n][i] == s[i];
    }
  }

  /**
   * The registration guards, checked in order before any lookup: both
   * fields filled, the confirmation equal, at least six UTF-16 code units.
   * None means the form may go on to the username check.
   */
  function ValidateRegistration(form: RegisterForm): (err: Option<string>)
    ensures err.None? <==>
      form.username != "" && form.password != "" && form.password == form.confirmPassword
      && Utf16Length(form.password) >= MinPasswordLength
    ensures err == Some(CredentialsRequired) <==> form.username == "" || form.password == ""
    ensures err == Some(PasswordsDiffer) <==>
      form.username != "" && form.password != "" && form.password != form.confirmPassword
    ensures err == Some(PasswordTooShort) <==>
      form.username != "" && form.password != "" && form.password == form.confirmPassword
      && Utf16Length(form.password) < MinPasswordLength
  {
    if form.username == "" || form.password == "" then Some(CredentialsRequired)
    else if form.password != form.confirmPassword then Some(PasswordsDiffer)
    else if Utf16Length(form.password) < MinPasswordLength then Some(PasswordTooShort)
    else None
  }

  /** Three characters beyond the basic plane make six code units, enough for the length guard. */
  lemma ThreeAstralCharactersAreLongEnough()
    ensures var p := "\U{1F600}\U{1F600}\U{1F600}";
      |p| == 3 && ValidateRegistration(RegisterForm("ana", p, p)).None?
  {
    var p := "\U{1F600}\U{1F600}\U{1F600}";
    var one, two := p[..1], p[..2];
    assert one[..0] == [] && two[..1] == one && p[..2] == two;
    assert Utf16Length(one) == 2;
    assert Utf16Length(two) == 4;
    assert Utf16Length(p) == 6;
  }

  /**
   * registerUser once validation passed: the username lookup (`taken`,
   * None when the lookup failed), then the two writes (`saved`: the user
   * record and its empty ledger both stored). A failed lookup or write
   * gives the generic account-creation error.
   */
  function Register(form: RegisterForm, taken: Option<bool>, saved: bool, id: string, createdAt: string,
                    digest: string -> string): (r: Result<User, string>)
    ensures r.Ok? <==> ValidateRegistration(form).None? && taken == Some(false) && saved
    ensures r.Ok? ==> r.value.id == id && r.value.username == form.username
                      && r.value.passwordHash == digest(form.password) && r.value.email.None?
    ensures ValidateRegistration(form).Some? ==> r == Err(ValidateRegistration(form).value)
    ensures ValidateRegistration(form).None? && taken == Some(true) ==> r == Err(UsernameTaken)
    ensures ValidateRegistration(form).None? && (taken.None? || (taken == Some(false) && !saved))
            ==> r == Err(CreateAccountFailed)
  {
    match ValidateRegistration(form)
    case Some(msg) => Err(msg)
    case None =>
      match taken
      case None => Err(CreateAccountFailed)
      case Some(isTaken) =>
        if isTaken then Err(UsernameTaken)
        else if !saved then Err(CreateAccountFailed)
        else Ok(User(id, form.username, digest(form.password), None, createdAt))
  }

  /** The lookup answers with users stored under the name asked for: None when it failed. */
  predicate FoundUnder(username: string, lookup: Option<Option<User>>)
  {
    lookup.Some? && lookup.value.Some? ==> lookup.value.value.username == username
  }

  /**
   * loginUser's decision: both fields required, then the lookup by name
   * (None when it failed), whose first user's stored digest must equal
   * the password's.
   */
  function Login(username: string, password: string, lookup: Option<Option<User>>,
                 digest: string -> string): (r: Result<User, string>)
    requires FoundUnder(username, lookup)
    ensures r.Ok? <==>
      username != "" && password != "" && lookup.Some? && lookup.value.Some?
      && lookup.value.value.passwordHash == digest(password)
    ensures r.Ok? ==> r.value == lookup.value.value && r.value.username == username
    ensures (username == "" || password == "") ==> r == Err(CredentialsRequired)
    ensures username != "" && password != "" && lookup.None? ==> r == Err(SignInFailed)
    ensures username != "" && password != "" && lookup == Some(None) ==> r == Err(UserNotFound)
    ensures username != "" && password != "" && lookup.Some? && lookup.value.Some?
            && lookup.value.value.passwordHash != digest(password)
            ==> r == Err(WrongPassword)
  {
    if username == "" || password == "" then Err(CredentialsRequired)
    else
      match lookup
      case None => Err(SignInFailed)
      case Some(found) =>
        if found.None? then Err(UserNotFound)
        else if found.value.passwordHash != digest(password) then Err(WrongPassword)
        else Ok(found.value)
  }

  /** A user registered with a password logs in with that same password, whatever the digest. */
  lemma RegisterThenLogin(form: RegisterForm, id: string, createdAt: string, digest: string -> string)
    requires ValidateRegistration(form).None?
    ensures var u := Register(form, Some(false), true, id, createdAt, digest);
      u.Ok? && Login(form.username, form.password, Some(Some(u.value)), digest) == Ok(u.value)
  {
  }
}
