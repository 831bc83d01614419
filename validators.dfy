/** The backend's input validators: total checks over loosely typed request bodies
    that answer with an ordered list of `{field, message}` errors, empty when the
    body is acceptable. */
module Validators {
  import opened Text
  import opened Json
  import Constants
  import ErrorHandler

  /** The body fields the validators report on. */
  datatype Field = Email | Username | Password | FirstName | LastName | Title | Status | Priority

  /** The field's name as it appears in the body and in the reported error. */
  function FieldName(f: Field): string {
    match f
    case Email => "email"
    case Username => "username"
    case Password => "password"
    case FirstName => "firstName"
    case LastName => "lastName"
    case Title => "title"
    case Status => "status"
    case Priority => "priority"
  }

  datatype ValidationError = ValidationError(field: Field, message: string)

  /** `{valid, errors}` as returned by the password-policy check. */
  datatype PasswordCheck = PasswordCheck(valid: bool, errors: seq<string>)

  const MinPasswordLength := 4

  const InvalidEmailFormat := "Invalid email format"
  const UsernameRule := "Username must be 3-30 characters, alphanumeric with hyphens/underscores"
  const PasswordTooShort := "Password must be at least 4 characters long"
  const PasswordRequired := "Password is required"
  const FirstNameRequired := "First name is required"
  const LastNameRequired := "Last name is required"
  const TitleRequired := "Task title is required"
  const InvalidStatus := "Invalid status value"
  const InvalidPriority := "Invalid priority value"

  const TaskStatuses: seq<string> := ["todo", "in_progress", "completed"]
  const TaskPriorities: seq<string> := ["low", "medium", "high"]

  /** Empty once trimmed: `s.trim().length === 0`. */
  predicate Blank(s: string) {
    Trim(s) == []
  }

  // ---------------------------------------------------------------------------
  // The e-mail pattern /^[^\s@]+@[^\s@]+\.[^\s@]+$/

  /** A run that `[^\s@]+` can match, less the non-emptiness. */
  predicate EmailAtom(t: string) {
    forall k :: 0 <= k < |t| ==> !IsWhitespace(t[k]) && t[k] != '@'
  }

  /** What the regular expression means: the whole string splits into three
      non-empty runs free of whitespace and '@', joined by an '@' and then a '.'. */
  predicate MatchesEmailPattern(s: string) {
    exists i, j :: 0 < i && i + 1 < j && j + 1 < |s| && s[i] == '@' && s[j] == '.'
      && EmailAtom(s[..i]) && EmailAtom(s[i + 1..j]) && EmailAtom(s[j + 1..])
  }

  /** A '.' with at least one character on each side. */
  predicate HasInnerDot(d: string) {
    exists k :: 0 < k < |d| - 1 && d[k] == '.'
  }

  /** The same language described field by field: no whitespace anywhere, exactly
      one '@', a non-empty local part before it, and a domain after it that holds a
      '.' with a character on each side. */
  predicate EmailShape(s: string) {
    && NoWhitespace(s)
    && exists at :: 0 < at < |s| && s[at] == '@' && '@' !in s[..at] && '@' !in s[at + 1..]
                     && HasInnerDot(s[at + 1..])
  }

  /** `validateEmail`: a single scan for the '@', then checks on the two sides. */
  function ValidateEmail(email: string): (r: bool)
    ensures '@' !in email ==> !r
    ensures r ==> IsTrimmed(email) && 0 < IndexOf(email, '@') && IndexOf(email, '@') + 4 <= |email|
  {
    if '@' !in email then false
    else
      var at := IndexOf(email, '@');
      var domain := email[at + 1..];
      0 < at && '@' !in domain && NoWhitespace(email) && HasInnerDot(domain)
  }

  /** validateEmail accepts exactly the strings of the field-by-field description. */
  lemma ValidateEmailIsShape(s: string)
    ensures ValidateEmail(s) <==> EmailShape(s)
  {
    if EmailShape(s) {
      var at :| 0 < at < |s| && s[at] == '@' && '@' !in s[..at] && '@' !in s[at + 1..]
                && HasInnerDot(s[at + 1..]);
      IndexOfIsFirst(s, '@', at);
    }
  }

  /** A slice of a whitespace-free string that holds no '@' is an atom. */
  lemma AtomOfSlice(s: string, lo: nat, hi: nat)
    requires lo <= hi <= |s|
    requires NoWhitespace(s) && '@' !in s[lo..hi]
    ensures EmailAtom(s[lo..hi])
  {
    forall k | 0 <= k < hi - lo
      ensures !IsWhitespace(s[lo..hi][k]) && s[lo..hi][k] != '@'
    {
      assert s[lo..hi][k] == s[lo + k];
    }
  }

  /** A character absent from a string is absent from each of its slices. */
  lemma NotInSlice(t: string, lo: nat, hi: nat, c: char)
    requires lo <= hi <= |t| && c !in t
    ensures c !in t[lo..hi]
  {
  }

  /** What validateEmail accepts, the regular expression matches. */
  lemma PatternOfValid(s: string)
    requires ValidateEmail(s)
    ensures MatchesEmailPattern(s)
  {
    var at := IndexOf(s, '@');
    var domain := s[at + 1..];
    var k :| 0 < k < |domain| - 1 && domain[k] == '.';
    var j := at + 1 + k;
    assert s[j] == '.';
    AtomOfSlice(s, 0, at);
    assert s[0..at] == s[..at];
    NotInSlice(domain, 0, k, '@');
    assert s[at + 1..j] == domain[0..k];
    AtomOfSlice(s, at + 1, j);
    NotInSlice(domain, k + 1, |domain|, '@');
    assert s[j + 1..|s|] == domain[k + 1..|domain|];
    AtomOfSlice(s, j + 1, |s|);
    assert s[j + 1..] == s[j + 1..|s|];
  }

  /** Each position of a string split at `i` and `j` lies in one of the three runs
      or is one of the two separators. */
  lemma AtomsCover(s: string, i: nat, j: nat)
    requires 0 < i && i + 1 < j && j + 1 < |s| && s[i] == '@' && s[j] == '.'
    requires EmailAtom(s[..i]) && EmailAtom(s[i + 1..j]) && EmailAtom(s[j + 1..])
    ensures NoWhitespace(s)
    ensures forall k :: i < k < |s| ==> s[k] != '@'
  {
    forall k | 0 <= k < |s|
      ensures !IsWhitespace(s[k]) && (i < k ==> s[k] != '@')
    {
      if k < i {
        assert s[k] == s[..i][k];
      } else if i < k < j {
        assert s[k] == s[i + 1..j][k - i - 1];
      } else if j < k {
        assert s[k] == s[j + 1..][k - j - 1];
      }
    }
  }

  /** What the regular expression matches, validateEmail accepts. */
  lemma ValidOfPattern(s: string)
    requires MatchesEmailPattern(s)
    ensures ValidateEmail(s)
  {
    var i, j :| 0 < i && i + 1 < j && j + 1 < |s| && s[i] == '@' && s[j] == '.'
      && EmailAtom(s[..i]) && EmailAtom(s[i + 1..j]) && EmailAtom(s[j + 1..]);
    AtomsCover(s, i, j);
    assert '@' !in s[..i] by {
      assert forall k :: 0 <= k < i ==> s[..i][k] != '@';
    }
    IndexOfIsFirst(s, '@', i);
    var domain := s[i + 1..];
    assert '@' !in domain by {
      assert forall k :: 0 <= k < |domain| ==> domain[k] == s[i + 1 + k];
    }
    assert domain[j - i - 1] == '.';
  }

  /** validateEmail accepts exactly the strings the regular expression matches. */
  lemma ValidateEmailIsPattern(s: string)
    ensures ValidateEmail(s) <==> MatchesEmailPattern(s)
  {
    if ValidateEmail(s) {
      PatternOfValid(s);
    }
    if MatchesEmailPattern(s) {
      ValidOfPattern(s);
    }
  }

  // ---------------------------------------------------------------------------
  // Password and username

  /** `validatePassword`: a local `errors` list that receives the policy message when
      the password is shorter than the minimum. */
  method ValidatePassword(password: string) returns (r: PasswordCheck)
    ensures r.valid <==> |password| >= MinPasswordLength
    ensures r.errors == if r.valid then [] else [PasswordTooShort]
  {
    var errors: seq<string> := [];
    if |password| < MinPasswordLength {
      errors := errors + [PasswordTooShort];
    }
    r := PasswordCheck(|errors| == 0, errors);
  }

  /** `validateUsername`: something other than whitespace. */
  function ValidateUsername(username: string): (ok: bool)
    ensures ok <==> exists i :: 0 <= i < |username| && !IsWhitespace(username[i])
  {
    !Blank(username)
  }

  // ---------------------------------------------------------------------------
  // Payload validators

  /** The three payload validators. Each checks a fixed list of fields in a fixed
      order and reports each failing field once, with a message of its own. */
  datatype Form = RegisterForm | LoginForm | TaskForm

  /** Number of fields the form checks. */
  function FieldCount(form: Form): nat {
    match form
    case RegisterForm => 5
    case LoginForm => 2
    case TaskForm => 3
  }

  /** Position at which the form checks `field`; FieldCount(form) for a field it
      does not check. */
  function Rank(form: Form, field: Field): nat {
    match form
    case RegisterForm =>
      (match field
       case Email => 0
       case Username => 1
       case Password => 2
       case FirstName => 3
       case LastName => 4
       case _ => 5)
    case LoginForm =>
      (match field
       case Email => 0
       case Password => 1
       case _ => 2)
    case TaskForm =>
      (match field
       case Title => 0
       case Status => 1
       case Priority => 2
       case _ => 3)
  }

  /** A status or priority is checked only when truthy; then it must be one of the
      enumerated strings. */
  predicate EnumFieldOk(v: Value, allowed: seq<string>) {
    !Truthy(v) || (v.Str? && v.s in allowed)
  }

  /** The check `field` must pass in `form`. */
  predicate FieldOk(form: Form, body: Payload, field: Field) {
    var v := Get(body, FieldName(field));
    match form
    case RegisterForm =>
      (match field
       case Email => v.Str? && ValidateEmail(v.s)
       case Username => v.Str? && ValidateUsername(v.s)
       case Password => v.Str? && |v.s| >= MinPasswordLength
       case _ => v.Str? && !Blank(v.s))
    case LoginForm =>
      (match field
       case Email => v.Str? && ValidateEmail(v.s)
       case _ => v.Str? && v.s != "")
    case TaskForm =>
      (match field
       case Title => v.Str? && !Blank(v.s)
       case Status => EnumFieldOk(v, TaskStatuses)
       case _ => EnumFieldOk(v, TaskPriorities))
  }

  /** The message a failing `field` is reported with. */
  function Message(form: Form, body: Payload, field: Field): string {
    match field
    case Email => InvalidEmailFormat
    case Username => UsernameRule
    case Password =>
      if form == RegisterForm && Get(body, "password").Str? then PasswordTooShort else PasswordRequired
    case FirstName => FirstNameRequired
    case LastName => LastNameRequired
    case Title => TitleRequired
    case Status => InvalidStatus
    case Priority => InvalidPriority
  }

  /** Some error in the list names `field`. */
  predicate Reports(errors: seq<ValidationError>, field: Field) {
    exists e :: e in errors && e.field == field
  }

  /** `errors` lists, in increasing `rank`, exactly the fields of rank below `k`
      whose check `ok` fails, each with its `message`. Strictly increasing ranks mean
      that no field is reported twice. */
  predicate Lists(errors: seq<ValidationError>, rank: Field -> nat, ok: Field -> bool,
                  message: Field -> string, k: nat)
  {
    && (forall e :: e in errors ==> rank(e.field) < k && e.message == message(e.field))
    && (forall i, j :: 0 <= i < j < |errors| ==> rank(errors[i].field) < rank(errors[j].field))
    && (forall f :: rank(f) < k ==> (Reports(errors, f) <==> !ok(f)))
  }

  /** Checking the field of the next rank, and appending its error when the check
      fails, extends the list by one rank. */
  lemma ListsStep(before: seq<ValidationError>, after: seq<ValidationError>, rank: Field -> nat,
                  ok: Field -> bool, message: Field -> string, field: Field)
    requires Lists(before, rank, ok, message, rank(field))
    requires forall g :: rank(g) == rank(field) ==> g == field
    requires after == if ok(field) then before else before + [ValidationError(field, message(field))]
    ensures Lists(after, rank, ok, message, rank(field) + 1)
  {
    forall f | rank(f) < rank(field) + 1
      ensures Reports(after, f) <==> !ok(f)
    {
      if Reports(after, f) && f != field {
        var e :| e in after && e.field == f;
        assert e in before;
      }
      if f == field && !ok(f) {
        assert after[|after| - 1].field == f;
      }
    }
  }

  /** A list is empty exactly when every check passes. */
  lemma ListsEmpty(errors: seq<ValidationError>, rank: Field -> nat, ok: Field -> bool,
                   message: Field -> string, k: nat)
    requires Lists(errors, rank, ok, message, k)
    ensures errors == [] <==> forall f :: rank(f) < k ==> ok(f)
  {
    if errors != [] {
      assert Reports(errors, errors[0].field);
    }
  }

  function RankIn(form: Form): Field -> nat {
    f => Rank(form, f)
  }

  function CheckIn(form: Form, body: Payload): Field -> bool {
    f => FieldOk(form, body, f)
  }

  function MessageIn(form: Form, body: Payload): Field -> string {
    f => Message(form, body, f)
  }

  /** `errors` is the complete answer of `form` on `body`. */
  predicate Emits(errors: seq<ValidationError>, form: Form, body: Payload) {
    Lists(errors, RankIn(form), CheckIn(form, body), MessageIn(form, body), FieldCount(form))
  }

  /** Every field of the form passes its check. */
  predicate Passes(form: Form, body: Payload) {
    forall f :: Rank(form, f) < FieldCount(form) ==> FieldOk(form, body, f)
  }

  /** The field the form checks at position `i`. */
  function FieldAt(form: Form, i: nat): (f: Field)
    requires i < FieldCount(form)
    ensures Rank(form, f) == i
  {
    match form
    case RegisterForm => [Email, Username, Password, FirstName, LastName][i]
    case LoginForm => [Email, Password][i]
    case TaskForm => [Title, Status, Priority][i]
  }

  /** The error `field` contributes: none when its check passes. */
  function Verdict(form: Form, body: Payload, field: Field): seq<ValidationError> {
    if FieldOk(form, body, field) then [] else [ValidationError(field, Message(form, body, field))]
  }

  /** The errors of the first `k` checks of the form, in checking order. */
  function Answer(form: Form, body: Payload, k: nat): seq<ValidationError>
    requires k <= FieldCount(form)
  {
    if k == 0 then [] else Answer(form, body, k - 1) + Verdict(form, body, FieldAt(form, k - 1))
  }

  /** Two fields the form checks at the same position are the same field. */
  lemma RankUnique(form: Form, f: Field, g: Field)
    requires Rank(form, f) == Rank(form, g) < FieldCount(form)
    ensures f == g
  {
  }

  /** The first `k` checks list exactly the failing fields among them, in order. */
  lemma {:induction false} AnswerLists(form: Form, body: Payload, k: nat)
    requires k <= FieldCount(form)
    ensures Lists(Answer(form, body, k), RankIn(form), CheckIn(form, body), MessageIn(form, body), k)
  {
    if k > 0 {
      var field := FieldAt(form, k - 1);
      AnswerLists(form, body, k - 1);
      forall g | RankIn(form)(g) == RankIn(form)(field)
        ensures g == field
      {
        RankUnique(form, g, field);
      }
      ListsStep(Answer(form, body, k - 1), Answer(form, body, k), RankIn(form), CheckIn(form, body),
                MessageIn(form, body), field);
    }
  }

  /** The full answer of a form is its complete, ordered error list, and it is empty
      exactly when the body passes. */
  lemma AnswerEmits(form: Form, body: Payload)
    ensures Emits(Answer(form, body, FieldCount(form)), form, body)
    ensures Answer(form, body, FieldCount(form)) == [] <==> Passes(form, body)
  {
    var errors := Answer(form, body, FieldCount(form));
    AnswerLists(form, body, FieldCount(form));
    ListsEmpty(errors, RankIn(form), CheckIn(form, body), MessageIn(form, body), FieldCount(form));
    if forall f :: RankIn(form)(f) < FieldCount(form) ==> CheckIn(form, body)(f) {
      forall f | Rank(form, f) < FieldCount(form)
        ensures FieldOk(form, body, f)
      {
        assert RankIn(form)(f) < FieldCount(form);
      }
    }
    if Passes(form, body) {
      forall f | RankIn(form)(f) < FieldCount(form)
        ensures CheckIn(form, body)(f)
      {
        assert FieldOk(form, body, f);
      }
    }
  }

  /** The register answer, check by check. */
  lemma RegisterAnswerByField(body: Payload)
    ensures Answer(RegisterForm, body, FieldCount(RegisterForm))
      == Verdict(RegisterForm, body, Email) + Verdict(RegisterForm, body, Username)
         + Verdict(RegisterForm, body, Password) + Verdict(RegisterForm, body, FirstName)
         + Verdict(RegisterForm, body, LastName)
  {
    assert FieldAt(RegisterForm, 0) == Email && FieldAt(RegisterForm, 1) == Username;
    assert FieldAt(RegisterForm, 2) == Password && FieldAt(RegisterForm, 3) == FirstName;
    assert FieldAt(RegisterForm, 4) == LastName;
    assert Answer(RegisterForm, body, 1) == Verdict(RegisterForm, body, Email);
    assert Answer(RegisterForm, body, 2) == Answer(RegisterForm, body, 1) + Verdict(RegisterForm, body, Username);
    assert Answer(RegisterForm, body, 3) == Answer(RegisterForm, body, 2) + Verdict(RegisterForm, body, Password);
    assert Answer(RegisterForm, body, 4) == Answer(RegisterForm, body, 3) + Verdict(RegisterForm, body, FirstName);
  }

  /** The login answer, check by check. */
  lemma LoginAnswerByField(body: Payload)
    ensures Answer(LoginForm, body, FieldCount(LoginForm))
      == Verdict(LoginForm, body, Email) + Verdict(LoginForm, body, Password)
  {
    assert FieldAt(LoginForm, 0) == Email && FieldAt(LoginForm, 1) == Password;
    assert Answer(LoginForm, body, 1) == Verdict(LoginForm, body, Email);
  }

  /** The task answer, check by check. */
  lemma TaskAnswerByField(body: Payload)
    ensures Answer(TaskForm, body, FieldCount(TaskForm))
      == Verdict(TaskForm, body, Title) + Verdict(TaskForm, body, Status) + Verdict(TaskForm, body, Priority)
  {
    assert FieldAt(TaskForm, 0) == Title && FieldAt(TaskForm, 1) == Status && FieldAt(TaskForm, 2) == Priority;
    assert Answer(TaskForm, body, 1) == Verdict(TaskForm, body, Title);
  }

  /** `validateRegisterInput`: exactly the failing fields, each once, in the order
      email, username, password, firstName, lastName; empty when every field passes. */
  method ValidateRegisterInput(body: Payload) returns (errors: seq<ValidationError>)
    ensures errors == Answer(RegisterForm, body, FieldCount(RegisterForm))
  {
    errors := [];
    var email := Get(body, "email");
    if !email.Str? || !ValidateEmail(email.s) {
      errors := errors + [ValidationError(Email, InvalidEmailFormat)];
    }
    ghost var upToEmail := errors;
    assert upToEmail == Verdict(RegisterForm, body, Email);
    var username := Get(body, "username");
    if !username.Str? || !ValidateUsername(username.s) {
      errors := errors + [ValidationError(Username, UsernameRule)];
    }
    assert errors == upToEmail + Verdict(RegisterForm, body, Username);
    ghost var upToUsername := errors;
    var password := Get(body, "password");
    if !password.Str? {
      errors := errors + [ValidationError(Password, PasswordRequired)];
    } else {
      var check := ValidatePassword(password.s);
      if !check.valid {
        errors := errors + [ValidationError(Password, JoinWith(check.errors, "; "))];
      }
    }
    assert errors == upToUsername + Verdict(RegisterForm, body, Password);
    ghost var upToPassword := errors;
    var firstName := Get(body, "firstName");
    if !firstName.Str? || Blank(firstName.s) {
      errors := errors + [ValidationError(FirstName, FirstNameRequired)];
    }
    assert errors == upToPassword + Verdict(RegisterForm, body, FirstName);
    ghost var upToFirstName := errors;
    var lastName := Get(body, "lastName");
    if !lastName.Str? || Blank(lastName.s) {
      errors := errors + [ValidationError(LastName, LastNameRequired)];
    }
    assert errors == upToFirstName + Verdict(RegisterForm, body, LastName);
    RegisterAnswerByField(body);
  }

  /** `validateLoginInput`: a well-formed e-mail and a non-empty password string,
      with no minimum length; errors in the order email, password. */
  method ValidateLoginInput(body: Payload) returns (errors: seq<ValidationError>)
    ensures errors == Answer(LoginForm, body, FieldCount(LoginForm))
  {
    errors := [];
    var email := Get(body, "email");
    if !email.Str? || !ValidateEmail(email.s) {
      errors := errors + [ValidationError(Email, InvalidEmailFormat)];
    }
    ghost var upToEmail := errors;
    assert upToEmail == Verdict(LoginForm, body, Email);
    var password := Get(body, "password");
    if !password.Str? || |password.s| == 0 {
      errors := errors + [ValidationError(Password, PasswordRequired)];
    }
    assert errors == upToEmail + Verdict(LoginForm, body, Password);
    LoginAnswerByField(body);
  }

  /** `validateTaskInput`: a title that is a string with something besides
      whitespace is always required; status and priority are checked only when
      truthy; errors in the order title, status, priority. */
  method ValidateTaskInput(body: Payload) returns (errors: seq<ValidationError>)
    ensures errors == Answer(TaskForm, body, FieldCount(TaskForm))
  {
    errors := [];
    var title := Get(body, "title");
    if !title.Str? || Blank(title.s) {
      errors := errors + [ValidationError(Title, TitleRequired)];
    }
    ghost var upToTitle := errors;
    assert upToTitle == Verdict(TaskForm, body, Title);
    var status := Get(body, "status");
    if Truthy(status) && !(status.Str? && status.s in TaskStatuses) {
      errors := errors + [ValidationError(Status, InvalidStatus)];
    }
    assert errors == upToTitle + Verdict(TaskForm, body, Status);
    ghost var upToStatus := errors;
    var priority := Get(body, "priority");
    if Truthy(priority) && !(priority.Str? && priority.s in TaskPriorities) {
      errors := errors + [ValidationError(Priority, InvalidPriority)];
    }
    assert errors == upToStatus + Verdict(TaskForm, body, Priority);
    TaskAnswerByField(body);
  }

  /** `JSON.stringify` of one error. The messages are fixed texts with nothing that
      JSON escapes. */
  function ErrorJson(e: ValidationError): string {
    "{\"field\":\"" + FieldName(e.field) + "\",\"message\":\"" + e.message + "\"}"
  }

  /** `JSON.stringify(errors)`: the message of the 400 a controller raises. */
  function ErrorsJson(errors: seq<ValidationError>): (r: string)
    ensures |r| >= 2 && r[0] == '[' && r[|r| - 1] == ']'
    ensures errors == [] ==> r == "[]"
  {
    "[" + JoinWith(seq(|errors|, i requires 0 <= i < |errors| => ErrorJson(errors[i])), ",") + "]"
  }

  /** The 400 a controller raises for a body its validator refuses, the error list
      serialised as its message. */
  function InvalidInput(errors: seq<ValidationError>): (r: ErrorHandler.AppError)
    ensures var sent := ErrorHandler.HandleError(ErrorHandler.App(r));
      && sent.status == Constants.BAD_REQUEST && sent.error.code == Constants.VALIDATION_ERROR
      && sent.error.message == ErrorsJson(errors)
      && sent.error.message[0] == '[' && sent.error.message[|sent.error.message| - 1] == ']'
  {
    ErrorHandler.AppError(Constants.BAD_REQUEST, Constants.VALIDATION_ERROR, ErrorsJson(errors))
  }

  // ---------------------------------------------------------------------------
  // Consequences for the three payload validators

  /** No field is reported twice. */
  lemma {:induction false} AnswerFieldsDistinct(form: Form, body: Payload)
    ensures var errors := Answer(form, body, FieldCount(form));
      forall i, j :: 0 <= i < j < |errors| ==> errors[i].field != errors[j].field
  {
    AnswerLists(form, body, FieldCount(form));
  }

  /** A password that is not a string is "required"; a string that is too short
      gets the policy message instead; a long enough one is not reported. */
  lemma RegisterPasswordMessage(body: Payload)
    ensures var errors := Answer(RegisterForm, body, FieldCount(RegisterForm));
      && (!Get(body, "password").Str? ==> ValidationError(Password, PasswordRequired) in errors)
      && (Get(body, "password").Str? && |Get(body, "password").s| < MinPasswordLength
          ==> ValidationError(Password, PasswordTooShort) in errors)
      && (Get(body, "password").Str? && |Get(body, "password").s| >= MinPasswordLength
          ==> !Reports(errors, Password))
  {
    RegisterAnswerByField(body);
    var email, username, password := Verdict(RegisterForm, body, Email), Verdict(RegisterForm, body, Username),
      Verdict(RegisterForm, body, Password);
    var firstName, lastName := Verdict(RegisterForm, body, FirstName), Verdict(RegisterForm, body, LastName);
    var errors := email + username + password + firstName + lastName;
    if password == [] {
      forall e: ValidationError | e in errors
        ensures e.field != Password
      {
        assert e in email || e in username || e in firstName || e in lastName;
      }
    } else {
      assert password[0] in errors;
    }
  }

  /** Login needs a well-formed e-mail and a non-empty password string; a password
      of any positive length is accepted. */
  lemma LoginAcceptance(body: Payload)
    ensures Answer(LoginForm, body, FieldCount(LoginForm)) == []
      <==> (&& Get(body, "email").Str? && ValidateEmail(Get(body, "email").s)
            && Get(body, "password").Str? && Get(body, "password").s != "")
  {
    LoginAnswerByField(body);
    var email, password := Verdict(LoginForm, body, Email), Verdict(LoginForm, body, Password);
    assert |email + password| == |email| + |password|;
  }

  /** A task body is accepted exactly when the title is a string with something
      besides whitespace and the status and priority are each falsy or one of the
      enumerated names. */
  lemma TaskAcceptance(body: Payload)
    ensures Answer(TaskForm, body, FieldCount(TaskForm)) == []
      <==> (&& Get(body, "title").Str? && !Blank(Get(body, "title").s)
            && EnumFieldOk(Get(body, "status"), TaskStatuses)
            && EnumFieldOk(Get(body, "priority"), TaskPriorities))
  {
    TaskAnswerByField(body);
    var title, status := Verdict(TaskForm, body, Title), Verdict(TaskForm, body, Status);
    var priority := Verdict(TaskForm, body, Priority);
    assert |title + status + priority| == |title| + |status| + |priority|;
  }

  /** Whatever else the body holds, a task without a title that is a string with
      something besides whitespace is refused, and the title error comes first. */
  lemma TaskTitleRequired(body: Payload)
    requires !(Get(body, "title").Str? && !Blank(Get(body, "title").s))
    ensures var errors := Answer(TaskForm, body, FieldCount(TaskForm));
      |errors| >= 1 && errors[0] == ValidationError(Title, TitleRequired)
  {
    TaskAnswerByField(body);
    assert Verdict(TaskForm, body, Title) == [ValidationError(Title, TitleRequired)];
  }

  /** An absent or empty status is not checked at all; any other value outside the
      enumerated statuses gives exactly one status error. */
  lemma TaskStatusOptional(body: Payload)
    ensures var errors := Answer(TaskForm, body, FieldCount(TaskForm));
      && (Get(body, "status") == Undefined || Get(body, "status") == Str("") ==> !Reports(errors, Status))
      && (!Truthy(Get(body, "status")) || (Get(body, "status").Str? && Get(body, "status").s in TaskStatuses)
          <==> !Reports(errors, Status))
      && (Reports(errors, Status) ==> ValidationError(Status, InvalidStatus) in errors)
  {
    var errors := Answer(TaskForm, body, FieldCount(TaskForm));
    AnswerEmits(TaskForm, body);
    if Reports(errors, Status) {
      var e :| e in errors && e.field == Status;
      assert e.message == InvalidStatus;
    }
  }

  /** The same for the priority. */
  lemma TaskPriorityOptional(body: Payload)
    ensures var errors := Answer(TaskForm, body, FieldCount(TaskForm));
      && (Get(body, "priority") == Undefined || Get(body, "priority") == Str("") ==> !Reports(errors, Priority))
      && (!Truthy(Get(body, "priority")) || (Get(body, "priority").Str? && Get(body, "priority").s in TaskPriorities)
          <==> !Reports(errors, Priority))
      && (Reports(errors, Priority) ==> ValidationError(Priority, InvalidPriority) in errors)
  {
    var errors := Answer(TaskForm, body, FieldCount(TaskForm));
    AnswerEmits(TaskForm, body);
    if Reports(errors, Priority) {
      var e :| e in errors && e.field == Priority;
      assert e.message == InvalidPriority;
    }
  }
}
