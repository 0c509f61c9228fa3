/**
 * The registration dialog's handler (`RegisterDialog.handle_register` in
 * register_dialog.py): the field checks on the four line edits, then one
 * `add_user` call, the dialog accepting exactly when that returns a truthy id.
 */
module Registration {
  import opened Wrappers
  import opened Tables
  import Store
  import Str = Text

  /** The avatar every new account gets. */
  const DefaultAvatar: string := "bubble_message/data/head1.jpg"

  /** What the username, password, confirmation and nickname line edits hold. */
  datatype Form = Form(username: string, password: string, confirm: string, nickname: string)

  /** The three warning boxes the handler can show. */
  datatype Warning = MissingField | PasswordMismatch | RegistrationFailed

  /** The field checks' verdict: a warning, or the values to register. */
  datatype Checked = Rejected(warning: Warning) | Ready(username: string, password: string, nickname: string)

  /** How a click ends: a warning and the dialog stays open, or the dialog accepts. */
  datatype Outcome = Warned(warning: Warning) | Registered(userId: int)

  /** The store after a click, and how the click ended. */
  datatype Attempt = Attempt(db: Db, outcome: Outcome)

  /**
   * The field checks. Username and nickname are stripped, the passwords are
   * taken verbatim; a field that is empty after that is reported first, and
   * only then a confirmation that differs from the password.
   */
  function Validate(f: Form): (c: Checked)
    ensures c == Rejected(MissingField) <==>
              Str.AllSpace(f.username) || f.password == [] || f.confirm == [] || Str.AllSpace(f.nickname)
    ensures c == Rejected(PasswordMismatch) <==>
              !Str.AllSpace(f.username) && f.password != [] && f.confirm != [] && !Str.AllSpace(f.nickname) && f.password != f.confirm
    ensures c != Rejected(RegistrationFailed)
    ensures c.Ready? ==>
              && c.username != [] && c.username == Str.Strip(f.username)
              && c.nickname != [] && c.nickname == Str.Strip(f.nickname)
              && c.password != [] && c.password == f.password == f.confirm
  {
    var username := Str.Strip(f.username);
    var nickname := Str.Strip(f.nickname);
    if username == [] || f.password == [] || f.confirm == [] || nickname == [] then Rejected(MissingField)
    else if f.password != f.confirm then Rejected(PasswordMismatch)
    else Ready(username, f.password, nickname)
  }

  /**
   * One click of the register button: a rejected form leaves the store alone;
   * a valid one is offered to `add_user` with the default avatar, and a
   * truthy id (not None, not 0) accepts the dialog.
   */
  function Register(db: Db, f: Form): (a: Attempt)
    ensures Validate(f).Rejected? ==> a == Attempt(db, Warned(Validate(f).warning))
    ensures Validate(f).Ready? ==>
              var c := Validate(f);
              && a.db == AddUser(db, c.username, c.password, c.nickname, DefaultAvatar).db
              && (a.outcome.Registered? ==> Some(a.outcome.userId) == AddUser(db, c.username, c.password, c.nickname, DefaultAvatar).id)
              && (!a.outcome.Registered? ==> a.outcome == Warned(RegistrationFailed))
  {
    match Validate(f)
    case Rejected(w) => Attempt(db, Warned(w))
    case Ready(username, password, nickname) =>
      var r := AddUser(db, username, password, nickname, DefaultAvatar);
      if r.id.Some? && r.id.value != 0 then Attempt(r.db, Registered(r.id.value))
      else Attempt(r.db, Warned(RegistrationFailed))
  }

  /**
   * On a consistent store the dialog accepts exactly when the fields pass and
   * the stripped username is not taken: the ids `add_user` hands out are
   * never 0, so the truthiness test only tells None apart. The store stays
   * consistent either way.
   */
  lemma RegisterAccepts(db: Db, f: Form)
    requires Valid(db)
    ensures Valid(Register(db, f).db)
    ensures Register(db, f).outcome.Registered? <==>
              Validate(f).Ready? && forall u | u in db.users :: u.username != Str.Strip(f.username)
  {
    var c := Validate(f);
    if c.Ready? {
      AddUserFresh(db, c.username, c.password, c.nickname, DefaultAvatar);
    }
  }

  /** A valid form whose stripped username is taken shows the "registration failed" warning and changes nothing. */
  lemma RegisterTakenWarns(db: Db, f: Form)
    requires Validate(f).Ready? && exists u | u in db.users :: u.username == Str.Strip(f.username)
    ensures Register(db, f) == Attempt(db, Warned(RegistrationFailed))
  {
  }

  /** An accepted registration can sign in at once with the password it chose, and has the default avatar. */
  lemma RegisterThenSignIn(db: Db, f: Form)
    requires Valid(db) && Register(db, f).outcome.Registered?
    ensures var a := Register(db, f);
            VerifyUser(a.db, Str.Strip(f.username), f.password)
              == Some(UserInfo(a.outcome.userId, Str.Strip(f.username), Str.Strip(f.nickname), DefaultAvatar))
  {
    var c := Validate(f);
    RegisterThenLogin(db, c.username, c.password, c.nickname, DefaultAvatar, f.password);
  }

  /** Whitespace around the username and nickname changes nothing: a pre-stripped form is handled the same way. */
  lemma RegisterIgnoresPadding(db: Db, f: Form)
    ensures Register(db, f) == Register(db, f.(username := Str.Strip(f.username), nickname := Str.Strip(f.nickname)))
  {
    var g := f.(username := Str.Strip(f.username), nickname := Str.Strip(f.nickname));
    Str.StripIdempotent(f.username);
    Str.StripIdempotent(f.nickname);
    assert Validate(g) == Validate(f);
  }

  class RegisterDialog {
    const db: Store.Database
    /** Whether `accept()` has been called. */
    var accepted: bool

    constructor (db: Store.Database)
      ensures this.db == db && !accepted
    {
      this.db := db;
      accepted := false;
    }

    /** `handle_register`. */
    method HandleRegister(form: Form) returns (outcome: Outcome)
      requires db.Valid()
      modifies this, db
      ensures db.Valid()
      ensures Attempt(db.Snapshot(), outcome) == Register(old(db.Snapshot()), form)
      ensures accepted == (old(accepted) || outcome.Registered?)
    {
      var username := Str.Strip(form.username);
      var password := form.password;
      var confirm := form.confirm;
      var nickname := Str.Strip(form.nickname);
      if username == [] || password == [] || confirm == [] || nickname == [] {
        return Warned(MissingField);
      }
      if password != confirm {
        return Warned(PasswordMismatch);
      }
      var userId := db.AddUser(username, password, nickname, DefaultAvatar);
      if userId.Some? && userId.value != 0 {
        accepted := true;
        return Registered(userId.value);
      }
      return Warned(RegistrationFailed);
    }
  }
}
