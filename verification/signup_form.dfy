/**
 * The waitlist signup form of the landing page (src/pages/Index.tsx): the component state
 * `email`, `isValid` and `isLoading`, the submit handler and the email input's `onChange`.
 *
 * The asynchronous submit handler is split at its one `await`: BeginSubmit runs up to and
 * including the issue of the insert, CompleteSubmit runs the rest once the backend answers.
 * The backend, the toast sink and `console.error` are outside the model: the insert's answer
 * is a parameter, and insert calls, toasts and log lines are appended to ghost logs.
 */
module SignupForm {
  import opened Wrappers
  import opened EmailValidation

  /** The SQLSTATE code `unique_violation` (class 23, integrity constraint violation). */
  const UniqueViolation: string := "23505"

  /** The table the signup row is inserted into. */
  const SignupsTable: string := "signups"

  /** The first argument `console.error` receives on an unexpected failure. */
  const LogContext: string := "Error signing up:"

  /** A toast notification: its title and its description. */
  datatype Toast = Toast(title: string, description: string)

  const SuccessToast := Toast("Success", "Thanks for signing up! We'll keep you updated.")
  const DuplicateToast := Toast("Already signed up!", "This email is already on our list.")
  const FailureToast := Toast("Something went wrong", "Please try again later.")

  /** One `insert` on a table with the single row `{ email }`: the email is its only field. */
  datatype InsertCall = InsertCall(table: string, email: string)

  /** An error object reaching the `catch` block, with its `code` property when it has one. */
  datatype SignupError = SignupError(code: Option<string>)

  /** How the awaited insert ended. */
  datatype InsertResult =
    | Inserted                        // resolved with `error` null
    | Returned(error: SignupError)    // resolved with an error object, rethrown by the handler
    | Thrown(error: SignupError)      // rejected with an object
    | ThrownNullish                   // rejected with null or undefined

  /** One `console.error` call: its context string and the error it was given. */
  datatype LogEntry = LogEntry(context: string, error: SignupError)

  /** How one submission attempt ended, as the handler's branches decide it. */
  datatype Outcome =
    | Success                         // no error: the row was added
    | AlreadySignedUp                 // an error with code "23505"
    | Failed(error: SignupError)      // any other error object
    | Crashed                         // reading `.code` of null/undefined threw out of the catch

  /** The error object the `catch` block receives, if the attempt reaches it with an object. */
  function CaughtError(result: InsertResult): (e: Option<SignupError>)
    ensures e.Some? <==> result.Returned? || result.Thrown?
    ensures e.Some? ==> e.value == result.error
  {
    match result
    case Inserted => None
    case Returned(err) => Some(err)
    case Thrown(err) => Some(err)
    case ThrownNullish => None
  }

  /** The `catch` block's branch for an error object: never success, never a crash. */
  function CaughtOutcome(err: SignupError): (o: Outcome)
    ensures o == AlreadySignedUp <==> err.code == Some(UniqueViolation)
    ensures o.Failed? <==> err.code != Some(UniqueViolation)
    ensures o.Failed? ==> o.error == err
  {
    if err.code == Some(UniqueViolation) then AlreadySignedUp else Failed(err)
  }

  /** The branch of `handleSubmit` that the insert's result selects. */
  function Classify(result: InsertResult): (o: Outcome)
    ensures o == Success <==> result == Inserted
    ensures o == Crashed <==> result == ThrownNullish
    ensures o == AlreadySignedUp <==>
      CaughtError(result).Some? && CaughtError(result).value.code == Some(UniqueViolation)
    ensures o.Failed? <==>
      CaughtError(result).Some? && CaughtError(result).value.code != Some(UniqueViolation)
    ensures o.Failed? ==> o.error == result.error
  {
    match result
    case Inserted => Success
    case ThrownNullish => Crashed
    case Returned(err) => CaughtOutcome(err)
    case Thrown(err) => CaughtOutcome(err)
  }

  /** A returned error and a thrown error with the same code are handled alike. */
  lemma ReturnedLikeThrown(err: SignupError)
    ensures Classify(Returned(err)) == Classify(Thrown(err))
    ensures Classify(Returned(err)) != Success
  {
  }

  /** The waitlist form component's state. */
  class Form {
    var email: string
    var isValid: bool
    var isLoading: bool

    /** Every insert issued, in order. */
    ghost var inserts: seq<InsertCall>
    /** Every toast shown, in order. */
    ghost var toasts: seq<Toast>
    /** Every `console.error` call, in order. */
    ghost var errorLog: seq<LogEntry>
    /** How each completed attempt ended, in order. */
    ghost var outcomes: seq<Outcome>

    /**
     * The form's invariant: while an insert is in flight the field is marked valid; every
     * insert went to the signups table with an email that passed validation; and every
     * insert but the one in flight has completed.
     */
    ghost predicate Valid()
      reads this
    {
      (isLoading ==> isValid) &&
      (forall k :: 0 <= k < |inserts| ==>
        inserts[k].table == SignupsTable && ValidateEmail(inserts[k].email)) &&
      |inserts| == |outcomes| + (if isLoading then 1 else 0)
    }

    /** The state `useState` gives the component on mount. */
    constructor ()
      ensures Valid()
      ensures email == "" && isValid && !isLoading
      ensures inserts == [] && toasts == [] && errorLog == [] && outcomes == []
    {
      email, isValid, isLoading := "", true, false;
      inserts, toasts, errorLog, outcomes := [], [], [], [];
    }

    /**
     * The email input's `onChange`: the field takes the new text, and the validity flag is
     * recomputed from it only while it is false.
     */
    method EditEmail(text: string)
      requires Valid()
      modifies this
      ensures Valid()
      ensures email == text
      ensures isValid == (old(isValid) || ValidateEmail(text))
      ensures old(isValid) ==> isValid
      ensures isLoading == old(isLoading)
      ensures inserts == old(inserts) && toasts == old(toasts)
      ensures errorLog == old(errorLog) && outcomes == old(outcomes)
    {
      email := text;
      if !isValid {
        isValid := ValidateEmail(text);
      }
    }

    /**
     * `handleSubmit` up to its `await`: an invalid email only clears the validity flag; a
     * valid one sets both flags and issues exactly one insert of the current email.
     * The submit button is disabled while loading, so no attempt starts during another.
     */
    method BeginSubmit() returns (issued: bool)
      requires Valid() && !isLoading
      modifies this
      ensures Valid()
      ensures issued <==> ValidateEmail(old(email))
      ensures issued <==> WellFormed(old(email))
      ensures email == old(email)
      ensures !issued ==> !isValid && !isLoading && inserts == old(inserts)
      ensures issued ==> isValid && isLoading
      ensures issued ==> inserts == old(inserts) + [InsertCall(SignupsTable, email)]
      ensures toasts == old(toasts) && errorLog == old(errorLog) && outcomes == old(outcomes)
    {
      if !ValidateEmail(email) {
        isValid := false;
        return false;
      }
      isValid := true;
      isLoading := true;
      inserts := inserts + [InsertCall(SignupsTable, email)];
      issued := true;
    }

    /**
     * `handleSubmit` after its `await`, given how the insert ended. Success shows one success
     * toast and clears the field; the code "23505" shows one "already signed up" toast; any
     * other error is logged once and shows one failure toast; both keep the field. A rejection
     * with null or undefined makes `error.code` throw inside the `catch`, so no toast and no
     * log, and the handler's promise rejects (`rejected`). The `finally` clears the loading flag
     * on every path.
     */
    method CompleteSubmit(result: InsertResult) returns (rejected: bool)
      requires Valid() && isLoading
      modifies this
      ensures Valid()
      ensures !isLoading && isValid
      ensures rejected <==> result == ThrownNullish
      ensures outcomes == old(outcomes) + [Classify(result)]
      ensures inserts == old(inserts)
      ensures email == if result == Inserted then "" else old(email)
      ensures Classify(result) == Success ==>
        toasts == old(toasts) + [SuccessToast] && errorLog == old(errorLog)
      ensures Classify(result) == AlreadySignedUp ==>
        toasts == old(toasts) + [DuplicateToast] && errorLog == old(errorLog)
      ensures Classify(result).Failed? ==>
        toasts == old(toasts) + [FailureToast] &&
        errorLog == old(errorLog) + [LogEntry(LogContext, result.error)]
      ensures Classify(result) == Crashed ==> toasts == old(toasts) && errorLog == old(errorLog)
    {
      rejected := false;
      match result {
        case Inserted =>
          toasts := toasts + [SuccessToast];
          email := "";
        case Returned(err) =>
          HandleCaught(err);
        case Thrown(err) =>
          HandleCaught(err);
        case ThrownNullish =>
          rejected := true;
      }
      outcomes := outcomes + [Classify(result)];
      isLoading := false;
    }

    /** The `catch` block, given an error object. */
    method HandleCaught(err: SignupError)
      modifies this`toasts, this`errorLog
      ensures err.code == Some(UniqueViolation) ==>
        toasts == old(toasts) + [DuplicateToast] && errorLog == old(errorLog)
      ensures err.code != Some(UniqueViolation) ==>
        toasts == old(toasts) + [FailureToast] &&
        errorLog == old(errorLog) + [LogEntry(LogContext, err)]
    {
      if err.code == Some(UniqueViolation) {
        toasts := toasts + [DuplicateToast];
      } else {
        errorLog := errorLog + [LogEntry(LogContext, err)];
        toasts := toasts + [FailureToast];
      }
    }
  }

  /**
   * A visitor submits an address that the browser's own e-mail check lets through but the
   * regular expression rejects: nothing is sent and the field is flagged. They correct it; the
   * flag clears as they type; they submit again, one insert goes out, and on success the field
   * is emptied and one success toast is shown.
   */
  method CorrectedSignup()
  {
    var form := new Form();
    form.EditEmail("a@b");
    assert form.isValid;
    RejectsIncomplete();
    AcceptsPlainAddress();
    var issued := form.BeginSubmit();
    assert !issued && !form.isValid && form.inserts == [];
    form.EditEmail("user@example.com");
    assert form.isValid;
    issued := form.BeginSubmit();
    assert issued && form.inserts == [InsertCall(SignupsTable, "user@example.com")];
    var rejected := form.CompleteSubmit(Inserted);
    assert !rejected && form.email == "" && !form.isLoading;
    assert form.toasts == [SuccessToast] && form.errorLog == [];
  }
}
