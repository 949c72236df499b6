/**
 * routes/registro.py: the self-registration form (validation chain, the
 * inactive account it inserts, the messages for a duplicate name, email or
 * phone) and the three availability endpoints the form calls as it is filled in.
 */
module Registro {
  import opened Wrappers
  import opened Text
  import opened Tables
  import Login

  /** `tipo_usuario` after its check: only "instructor" is kept; anything else, or no field, is "funcionario". */
  function NormalizedKind(tipo: Option<string>): (k: string)
    ensures k == "instructor" || k == "funcionario"
    ensures k == "instructor" <==> tipo == Some("instructor")
  {
    if tipo == Some("instructor") then "instructor" else "funcionario"
  }

  // The email pattern ^[a-zA-Z0-9._%+-]+@[a-zA-Z0-9.-]+\.[a-zA-Z]{2,}$

  predicate LocalChar(c: char) {
    IsAsciiLetter(c) || IsDigit(c) || c == '.' || c == '_' || c == '%' || c == '+' || c == '-'
  }
  predicate DomainChar(c: char) { IsAsciiLetter(c) || IsDigit(c) || c == '.' || c == '-' }

  predicate AllLocal(s: string) { forall k :: 0 <= k < |s| ==> LocalChar(s[k]) }
  predicate AllDomain(s: string) { forall k :: 0 <= k < |s| ==> DomainChar(s[k]) }
  predicate AllLetters(s: string) { forall k :: 0 <= k < |s| ==> IsAsciiLetter(s[k]) }

  /**
   * The language of the pattern without its anchors, as the pattern reads:
   * a non-empty local part, '@', a non-empty domain, '.', two or more letters.
   */
  ghost predicate EmailShape(t: string) {
    exists i, j :: 1 <= i && i + 2 <= j && j + 3 <= |t| && t[i] == '@' && t[j] == '.'
      && AllLocal(t[..i]) && AllDomain(t[i + 1..j]) && AllLetters(t[j + 1..])
  }

  /**
   * The same language decided directly: the local part cannot hold '@' and
   * the final letters cannot hold '.', so the split is at the first '@' and
   * at the last '.'.
   */
  predicate EmailCore(t: string) {
    match IndexOf(t, '@')
    case None => false
    case Some(i) =>
      match LastIndexOf(t, '.')
      case None => false
      case Some(j) =>
        1 <= i && i + 2 <= j && j + 3 <= |t|
        && AllLocal(t[..i]) && AllDomain(t[i + 1..j]) && AllLetters(t[j + 1..])
  }

  /** The direct decision procedure accepts exactly the pattern's language. */
  lemma EmailCoreIsShape(t: string)
    ensures EmailCore(t) <==> EmailShape(t)
  {
    if EmailShape(t) {
      var i, j :| 1 <= i && i + 2 <= j && j + 3 <= |t| && t[i] == '@' && t[j] == '.'
        && AllLocal(t[..i]) && AllDomain(t[i + 1..j]) && AllLetters(t[j + 1..]);
      forall k | 0 <= k < i
        ensures t[k] != '@'
      {
        assert LocalChar(t[..i][k]);
      }
      forall k | j < k < |t|
        ensures t[k] != '.'
      {
        assert IsAsciiLetter(t[j + 1..][k - j - 1]);
      }
      assert '@' in t;
      assert '.' in t;
      var a := IndexOf(t, '@').value;
      var b := LastIndexOf(t, '.').value;
      assert a == i;
      assert b == j;
    }
    if EmailCore(t) {
      var i := IndexOf(t, '@').value;
      var j := LastIndexOf(t, '.').value;
      assert t[i] == '@' && t[j] == '.';
    }
  }

  /**
   * `re.match` with the pattern: `$` also matches just before a final
   * newline, so one trailing "\n" after a valid address is accepted.
   */
  function EmailMatches(s: string): (ok: bool)
    ensures ok <==> EmailShape(s) || (|s| > 0 && s[|s| - 1] == '\n' && EmailShape(s[..|s| - 1]))
  {
    EmailCoreIsShape(s);
    if |s| > 0 && s[|s| - 1] == '\n' then
      NewlineEndNotShape(s);
      EmailCoreIsShape(s[..|s| - 1]);
      EmailCore(s[..|s| - 1])
    else EmailCore(s)
  }

  /** An address of the pattern ends with a letter, never with a newline. */
  lemma NewlineEndNotShape(t: string)
    requires |t| > 0
    ensures EmailShape(t) ==> IsAsciiLetter(t[|t| - 1])
  {
    if EmailShape(t) {
      var i, j :| 1 <= i && i + 2 <= j && j + 3 <= |t| && t[i] == '@' && t[j] == '.'
        && AllLocal(t[..i]) && AllDomain(t[i + 1..j]) && AllLetters(t[j + 1..]);
      assert t[j + 1..][|t| - j - 2] == t[|t| - 1];
    }
  }

  lemma EmailAcceptsDottedDomain()
    ensures EmailMatches("a.b@x.edu.co")
  {
    var t := "a.b@x.edu.co";
    assert t[..3] == "a.b" && t[4..9] == "x.edu" && t[10..] == "co";
    assert 1 <= 3 && 3 + 2 <= 9 && 9 + 3 <= |t| && t[3] == '@' && t[9] == '.'
      && AllLocal(t[..3]) && AllDomain(t[4..9]) && AllLetters(t[10..]);
    EmailCoreIsShape(t);
  }

  lemma EmailAcceptsTrailingNewline()
    ensures EmailMatches("ana@sena.co\n")
  {
    var t := "ana@sena.co";
    assert "ana@sena.co\n"[..11] == t;
    assert t[..3] == "ana" && t[4..8] == "sena" && t[9..] == "co";
    assert 1 <= 3 && 3 + 2 <= 8 && 8 + 3 <= |t| && t[3] == '@' && t[8] == '.'
      && AllLocal(t[..3]) && AllDomain(t[4..8]) && AllLetters(t[9..]);
    EmailCoreIsShape(t);
  }

  lemma EmailRejectsOneLetterEnding()
    ensures !EmailMatches("ana@sena.c")
  {
    var t := "ana@sena.c";
    assert IndexOf(t, '@') == Some(3);
    assert LastIndexOf(t, '.') == Some(8);
  }

  lemma EmailRejectsEmptyLocalPart()
    ensures !EmailMatches("@sena.co")
  {
    assert IndexOf("@sena.co", '@') == Some(0);
  }

  /** An address the pattern accepts holds only pattern characters and '@'. */
  lemma {:induction false} EmailCharsAllowed(t: string, k: int)
    requires EmailShape(t) && 0 <= k < |t|
    ensures LocalChar(t[k]) || t[k] == '@'
  {
    var i, j :| 1 <= i && i + 2 <= j && j + 3 <= |t| && t[i] == '@' && t[j] == '.'
      && AllLocal(t[..i]) && AllDomain(t[i + 1..j]) && AllLetters(t[j + 1..]);
    if k < i {
      assert LocalChar(t[..i][k]);
    } else if i < k < j {
      assert DomainChar(t[i + 1..j][k - i - 1]);
    } else if j < k {
      assert IsAsciiLetter(t[j + 1..][k - j - 1]);
    }
  }

  /** Only one final newline is forgiven by `$`. */
  lemma EmailRejectsTwoNewlines()
    ensures !EmailMatches("ana@sena.co\n\n")
  {
    var t := "ana@sena.co\n";
    assert "ana@sena.co\n\n"[..12] == t;
    EmailCoreIsShape(t);
    if EmailShape(t) {
      EmailCharsAllowed(t, 11);
      assert false;
    }
  }

  /** The POSTed registration form; a field missing from the form is `None`. */
  datatype RegistroForm = RegistroForm(
    nombre: Option<string>, email: Option<string>, telefono: Option<string>,
    password: Option<string>, confirmPassword: Option<string>, tipoUsuario: Option<string>)

  /** Why a registration is refused, one per flash message. */
  datatype Rejection =
    | MissingFields | PasswordMismatch | InvalidEmail | ShortPhone | ShortPassword
    | DuplicateEmail | DuplicatePhone | DuplicateName

  function Message(r: Rejection): (m: string)
    ensures m != ""
  {
    match r
    case MissingFields => "Todos los campos son obligatorios"
    case PasswordMismatch => "Las contraseñas no coinciden"
    case InvalidEmail => "Por favor, ingrese un correo electrónico válido"
    case ShortPhone => "El teléfono debe tener al menos 10 caracteres"
    case ShortPassword => "La contraseña debe tener al menos 8 caracteres"
    case DuplicateEmail => "Este correo electrónico ya está registrado"
    case DuplicatePhone => "Este número de teléfono ya está registrado"
    case DuplicateName => "Este nombre de usuario ya está registrado"
  }

  /** Each refusal has its own message. */
  lemma MessagesDistinct(a: Rejection, b: Rejection)
    requires Message(a) == Message(b)
    ensures a == b
  {
  }

  predicate AllFilled(f: RegistroForm) {
    Truthy(f.nombre) && Truthy(f.email) && Truthy(f.telefono)
    && Truthy(f.password) && Truthy(f.confirmPassword)
  }

  /** A form every check of the handler accepts. */
  predicate Acceptable(f: RegistroForm) {
    AllFilled(f) && f.password == f.confirmPassword && EmailMatches(f.email.value)
    && |f.telefono.value| >= 10 && |f.password.value| >= 8
  }

  /**
   * The validation chain, in the handler's order: each refusal means every
   * earlier check passed.
   */
  function FormRejection(f: RegistroForm): (r: Option<Rejection>)
    ensures r.None? <==> Acceptable(f)
    ensures r == Some(MissingFields) <==> !AllFilled(f)
    ensures r == Some(PasswordMismatch) <==> AllFilled(f) && f.password != f.confirmPassword
    ensures r == Some(InvalidEmail) <==>
      AllFilled(f) && f.password == f.confirmPassword && !EmailMatches(f.email.value)
    ensures r == Some(ShortPhone) <==>
      AllFilled(f) && f.password == f.confirmPassword && EmailMatches(f.email.value)
      && |f.telefono.value| < 10
    ensures r.Some? ==> r.value !in {DuplicateEmail, DuplicatePhone, DuplicateName}
  {
    if !AllFilled(f) then Some(MissingFields)
    else if f.password != f.confirmPassword then Some(PasswordMismatch)
    else if !EmailMatches(f.email.value) then Some(InvalidEmail)
    else if |f.telefono.value| < 10 then Some(ShortPhone)
    else if |f.password.value| < 8 then Some(ShortPassword)
    else None
  }

  /**
   * The UNIQUE constraints on `usuarios.email`, `telefono` and `nombre`,
   * with the handler's message for each.
   */
  function Clash(users: seq<User>, nombre: string, email: string, telefono: string): (r: Option<Rejection>)
    ensures r.None? <==>
      forall u :: u in users ==> u.email != email && u.telefono != telefono && u.nombre != nombre
    ensures r == Some(DuplicateEmail) ==> exists u :: u in users && u.email == email
    ensures r == Some(DuplicatePhone) ==> exists u :: u in users && u.telefono == telefono
    ensures r == Some(DuplicateName) ==> exists u :: u in users && u.nombre == nombre
    ensures r.Some? ==> r.value in {DuplicateEmail, DuplicatePhone, DuplicateName}
  {
    if exists u :: u in users && u.email == email then Some(DuplicateEmail)
    else if exists u :: u in users && u.telefono == telefono then Some(DuplicatePhone)
    else if exists u :: u in users && u.nombre == nombre then Some(DuplicateName)
    else None
  }

  /** No two accounts share a name, an email or a phone. */
  ghost predicate UniqueAccounts(users: seq<User>) {
    forall i, j :: 0 <= i < j < |users| ==>
      users[i].nombre != users[j].nombre && users[i].email != users[j].email
      && users[i].telefono != users[j].telefono
  }

  lemma UniqueAfterAppend(users: seq<User>, u: User)
    requires Clash(users, u.nombre, u.email, u.telefono).None?
    ensures UniqueAccounts(users) ==> UniqueAccounts(users + [u])
  {
    if UniqueAccounts(users) {
      forall i, j | 0 <= i < j < |users + [u]|
        ensures (users + [u])[i].nombre != (users + [u])[j].nombre
        ensures (users + [u])[i].email != (users + [u])[j].email
        ensures (users + [u])[i].telefono != (users + [u])[j].telefono
      {
        if j == |users| {
          assert (users + [u])[i] in users;
        }
      }
    }
  }

  /**
   * `registro_usuario` on POST. `hashed` is what `generate_password_hash`
   * returned for the password (it is salted at random). A refused form
   * changes nothing; an accepted one appends an inactive account with the
   * next id, which keeps every account unique.
   */
  method Register(db: Database, f: RegistroForm, hashed: string) returns (r: Option<Rejection>)
    requires db.Valid()
    modifies db
    ensures db.Valid()
    ensures FormRejection(f).Some? ==> r == FormRejection(f)
    ensures FormRejection(f).None? ==>
      r == Clash(old(db.usuarios), f.nombre.value, f.email.value, f.telefono.value)
    ensures r.Some? ==> db.State() == old(db.State())
    ensures r.None? ==>
      db.State() == old(db.State()).(
        usuarios := old(db.usuarios) + [User(old(db.lastUsuario) + 1, f.nombre.value, f.email.value,
                      f.telefono.value, hashed, NormalizedKind(f.tipoUsuario), 0, None)],
        lastUsuario := old(db.lastUsuario) + 1)
    ensures UniqueAccounts(old(db.usuarios)) ==> UniqueAccounts(db.usuarios)
  {
    r := FormRejection(f);
    if r.Some? {
      return;
    }
    r := Clash(db.usuarios, f.nombre.value, f.email.value, f.telefono.value);
    if r.Some? {
      return;
    }
    var u := User(db.lastUsuario + 1, f.nombre.value, f.email.value, f.telefono.value,
                  hashed, NormalizedKind(f.tipoUsuario), 0, None);
    AppendUser(db.usuarios, db.lastUsuario, u);
    UniqueAfterAppend(db.usuarios, u);
    db.usuarios := db.usuarios + [u];
    db.lastUsuario := db.lastUsuario + 1;
  }

  /**
   * A freshly registered account cannot log in until an administrator
   * activates it, whatever password is given.
   */
  lemma NewAccountCannotLogIn(
    users: seq<User>, u: User, password: Option<string>, passwordMatches: (string, string) -> bool)
    requires u.activo == 0
    requires Clash(users, u.nombre, u.email, u.telefono).None?
    ensures !Login.CheckCredentials(users + [u], Some(u.email), password, passwordMatches).Authenticated?
  {
    forall v | v in users + [u] && v.email == u.email
      ensures v.activo != 1
    {
      if v in users {
        assert false;
      }
    }
    Login.InactiveCannotLogIn(users + [u], u.email, password, passwordMatches);
  }

  /** The column an availability endpoint looks up. */
  datatype Field = EmailField | PhoneField | NameField

  function FieldOf(u: User, field: Field): string {
    match field
    case EmailField => u.email
    case PhoneField => u.telefono
    case NameField => u.nombre
  }

  /** The JSON reply `{disponible, mensaje}`. */
  datatype Availability = Availability(disponible: bool, mensaje: string)

  /** `verificar_email`, `verificar_telefono`, `verificar_nombre`. */
  function CheckAvailable(users: seq<User>, field: Field, value: Option<string>): (r: Availability)
    ensures r.disponible <==> Truthy(value) && forall u :: u in users ==> FieldOf(u, field) != value.value
    ensures !Truthy(value) ==>
      r.mensaje == (match field
                    case EmailField => "Email requerido"
                    case PhoneField => "Teléfono requerido"
                    case NameField => "Nombre requerido")
  {
    if !Truthy(value) then
      Availability(false, match field
                          case EmailField => "Email requerido"
                          case PhoneField => "Teléfono requerido"
                          case NameField => "Nombre requerido")
    else if exists u :: u in users && FieldOf(u, field) == value.value then
      Availability(false, match field
                          case EmailField => "Este email ya está registrado"
                          case PhoneField => "Este teléfono ya está registrado"
                          case NameField => "Este nombre ya está registrado")
    else
      Availability(true, match field
                         case EmailField => "Email disponible"
                         case PhoneField => "Teléfono disponible"
                         case NameField => "Nombre disponible")
  }

  /**
   * The three endpoints report all available exactly when the registration
   * would pass its uniqueness constraints.
   */
  lemma AvailabilityPredictsClash(users: seq<User>, nombre: string, email: string, telefono: string)
    requires nombre != "" && email != "" && telefono != ""
    ensures Clash(users, nombre, email, telefono).None? <==>
      && CheckAvailable(users, EmailField, Some(email)).disponible
      && CheckAvailable(users, PhoneField, Some(telefono)).disponible
      && CheckAvailable(users, NameField, Some(nombre)).disponible
  {
  }
}
