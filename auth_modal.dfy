/** The sign-in / sign-up dialog: its eight form fields, the checks made before
    anything is sent, the normalised sign-up input, and which fields the mode
    switch and the close action clear. The authentication service itself is
    represented only by the request sent and the reply received. */
module Auth {
  import opened Wrappers
  import Text

  datatype Mode = Login | Signup

  const FillAllFields: string := "برجاء إدخال كل البيانات"
  const PasswordsDiffer: string := "كلمتا المرور غير متطابقتين."
  const ConfirmationSent: string := "تم إرسال رسالة تأكيد إلى بريدك."
  const SignedUpAndIn: string := "تم إنشاء الحساب وتسجيل الدخول."
  const Unexpected: string := "حدث خطأ غير متوقع."

  /** A field the form requires is missing in `mode`. */
  predicate Missing(mode: Mode, email: string, name: string, password: string, confirm: string) {
    match mode
    case Signup => Text.Trim(name) == "" || Text.Trim(email) == "" || password == "" || confirm == ""
    case Login => Text.Trim(email) == "" || password == ""
  }

  /** The status message that stops a submission, or `None` when it may proceed:
      missing fields are reported first, then a sign-up password mismatch. */
  function Validate(mode: Mode, email: string, name: string, password: string, confirm: string): (error: Option<string>)
    ensures error == Some(FillAllFields) <==> Missing(mode, email, name, password, confirm)
    ensures error == Some(PasswordsDiffer) <==>
              !Missing(mode, email, name, password, confirm) && mode == Signup && password != confirm
    ensures error.None? <==>
              !Missing(mode, email, name, password, confirm) && (mode == Signup ==> password == confirm)
  {
    if Missing(mode, email, name, password, confirm) then Some(FillAllFields)
    else if mode == Signup && password != confirm then Some(PasswordsDiffer)
    else None
  }

  datatype AuthRequest =
    | SignUp(email: string, password: string, fullName: string)
    | SignIn(email: string, password: string)

  /** What the authentication service answered: an error (with its message when
      it is an `Error` instance), a sign-up with or without a session, or a sign-in. */
  datatype AuthReply =
    | Failed(message: Option<string>)
    | SignedUp(hasSession: bool)
    | SignedIn

  /** The sign-up e-mail as sent: trimmed, then lower-cased. */
  function NormalEmail(email: string): string {
    Text.ToLower(Text.Trim(email))
  }

  /** The normalised e-mail is non-empty exactly when the typed one is not
      blank, has no whitespace at either end, and normalising it again changes
      nothing. */
  lemma NormalEmailShape(email: string)
    ensures NormalEmail(email) == "" <==> Text.Trim(email) == ""
    ensures var e := NormalEmail(email);
            e == [] || (!Text.IsWhitespace(e[0]) && !Text.IsWhitespace(e[|e| - 1]))
    ensures NormalEmail(NormalEmail(email)) == NormalEmail(email)
  {
    var t := Text.Trim(email);
    var e := Text.ToLower(t);
    if e != [] {
      Text.LowerCharWhitespace(t[0]);
      Text.LowerCharWhitespace(t[|t| - 1]);
    }
    Text.TrimOfTrimmed(e);
    Text.ToLowerIdempotent(t);
  }

  /** The request `handleSubmit` sends once the checks pass: sign-up sends the
      normalised e-mail and the trimmed name, sign-in the e-mail as typed. */
  function SubmitRequest(mode: Mode, email: string, name: string, password: string): (r: AuthRequest)
    ensures mode == Signup ==> r == SignUp(NormalEmail(email), password, Text.Trim(name))
    ensures mode == Login ==> r == SignIn(email, password)
  {
    match mode
    case Signup =>
      var normEmail := Text.ToLower(Text.Trim(email));
      var normName := Text.Trim(name);
      Text.TrimIdempotent(name);
      SignUp(normEmail, password, Text.Trim(normName))
    case Login => SignIn(email, password)
  }

  /** The dialog's state. */
  class AuthForm {
    var mode: Mode
    var email: string
    var name: string
    var password: string
    var confirmPassword: string
    var showPassword: bool
    var showConfirm: bool
    var isSubmitting: bool
    var status: Option<string>

    /** Every field at its initial value. */
    predicate Cleared()
      reads this
    {
      email == "" && name == "" && password == "" && confirmPassword == "" &&
      !showPassword && !showConfirm && !isSubmitting && status.None?
    }

    constructor (mode: Mode)
      ensures this.mode == mode && Cleared()
    {
      this.mode := mode;
      email := "";
      name := "";
      password := "";
      confirmPassword := "";
      showPassword := false;
      showConfirm := false;
      isSubmitting := false;
      status := None;
    }

    /** The effect on `mode`: a switch clears everything but the e-mail and the
        in-flight flag; setting the same mode again does nothing. */
    method ModeChanged(newMode: Mode)
      modifies this
      ensures mode == newMode
      ensures email == old(email) && isSubmitting == old(isSubmitting)
      ensures newMode != old(mode) ==>
                name == "" && password == "" && confirmPassword == "" &&
                !showPassword && !showConfirm && status.None?
      ensures newMode == old(mode) ==>
                name == old(name) && password == old(password) && confirmPassword == old(confirmPassword) &&
                showPassword == old(showPassword) && showConfirm == old(showConfirm) && status == old(status)
    {
      if newMode != mode {
        name := "";
        password := "";
        confirmPassword := "";
        showPassword := false;
        showConfirm := false;
        status := None;
      }
      mode := newMode;
    }

    /** `resetFields`, which `handleClose` runs before closing. */
    method ResetFields()
      modifies this
      ensures Cleared() && mode == old(mode)
    {
      email := "";
      name := "";
      password := "";
      confirmPassword := "";
      showPassword := false;
      showConfirm := false;
      isSubmitting := false;
      status := None;
    }

    /** The part of `handleSubmit` before the request: the request sent, if any. */
    method BeginSubmit() returns (request: Option<AuthRequest>)
      modifies this
      ensures var error := Validate(mode, email, name, password, confirmPassword);
              (error.Some? ==> request.None? && status == error && isSubmitting == old(isSubmitting)) &&
              (error.None? ==> request.Some? && status.None? && isSubmitting)
      ensures request.Some? ==> request.value == SubmitRequest(mode, email, name, password)
      ensures mode == old(mode) && email == old(email) && name == old(name) &&
              password == old(password) && confirmPassword == old(confirmPassword) &&
              showPassword == old(showPassword) && showConfirm == old(showConfirm)
    {
      status := None;
      var error := Validate(mode, email, name, password, confirmPassword);
      if error.Some? {
        status := error;
        return None;
      }
      isSubmitting := true;
      request := Some(SubmitRequest(mode, email, name, password));
    }

    /** The part of `handleSubmit` after the reply: whether the dialog asks to
        be closed and whether the page is refreshed. A sign-in closes and
        clears the dialog; every outcome ends with nothing in flight. */
    method FinishSubmit(reply: AuthReply) returns (closed: bool, refreshed: bool)
      modifies this
      ensures !isSubmitting
      ensures closed <==> reply == SignedIn
      ensures refreshed <==> !reply.Failed?
      ensures reply == SignedIn ==> Cleared()
      ensures reply.Failed? ==> status == Some(reply.message.GetOr(Unexpected))
      ensures reply.SignedUp? ==> status == Some(if reply.hasSession then SignedUpAndIn else ConfirmationSent)
      ensures reply != SignedIn ==>
                email == old(email) && name == old(name) && password == old(password) &&
                confirmPassword == old(confirmPassword) &&
                showPassword == old(showPassword) && showConfirm == old(showConfirm)
      ensures mode == old(mode)
    {
      closed, refreshed := false, false;
      match reply {
        case Failed(message) =>
          status := Some(message.GetOr(Unexpected));
        case SignedUp(hasSession) =>
          status := Some(if hasSession then SignedUpAndIn else ConfirmationSent);
          refreshed := true;
        case SignedIn =>
          status := Some("تم تسجيل الدخول بنجاح.");
          ResetFields();
          closed, refreshed := true, true;
      }
      isSubmitting := false;
    }
  }

  /** A sign-up request is only ever sent with a non-blank, normalised e-mail,
      a trimmed non-empty name and matching, non-empty passwords. */
  lemma SignupRequestShape(email: string, name: string, password: string, confirm: string)
    requires Validate(Signup, email, name, password, confirm).None?
    ensures NormalEmail(email) != "" && NormalEmail(NormalEmail(email)) == NormalEmail(email)
    ensures Text.Trim(name) != "" && Text.Trim(Text.Trim(name)) == Text.Trim(name)
    ensures password != "" && password == confirm
  {
    NormalEmailShape(email);
    Text.TrimIdempotent(name);
  }
}
