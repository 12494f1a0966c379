/** The create/edit user form: validation with ordered, mutually exclusive
    messages per field, the edit-permission check when an existing record is
    loaded, field editing, and the submission that dispatches to the store. */
module UserForm {
  import opened Wrappers
  import opened Seqs
  import opened Text
  import opened Users
  import opened UserSlice
  import Permissions

  /** `/users/create` has no id; `/users/:id/edit` has one. */
  datatype Mode = CreateMode | EditMode(id: string)

  datatype Field = FirstNameField | LastNameField | EmailField | PhoneField | BioField | RoleField | PasswordField

  /** The field values the form starts with. */
  const EmptyForm: FormData := FormData("", "", "", "", "", USER, "")

  const FIRST_NAME_REQUIRED: string := "First name is required"
  const LAST_NAME_REQUIRED: string := "Last name is required"
  const EMAIL_REQUIRED: string := "Email is required"
  const EMAIL_INVALID: string := "Email is invalid"
  const EMAIL_TAKEN: string := "Email already exists"
  const PASSWORD_REQUIRED: string := "Password is required for new users"
  const PASSWORD_TOO_SHORT: string := "Password must be at least 6 characters"

  /** One match of the unanchored pattern `\S+@\S+\.\S+` with the `@` at `i`
      and the `.` at `k`: a non-space character before the `@`, only non-space
      characters (at least one) between them, and a non-space one after the dot. */
  predicate EmailMatchAt(s: string, i: int, k: int) {
    1 <= i && i + 1 < k && k + 1 < |s| &&
    s[i] == '@' && s[k] == '.' && !IsSpace(s[i - 1]) && !IsSpace(s[k + 1]) &&
    forall j :: i < j < k ==> !IsSpace(s[j])
  }

  /** `/\S+@\S+\.\S+/.test(s)`. */
  predicate LooksLikeEmail(s: string) {
    exists i, k | 0 <= i < |s| && 0 <= k < |s| :: EmailMatchAt(s, i, k)
  }

  lemma LooksLikeEmailExamples()
    ensures LooksLikeEmail("john.doe@example.com")
    ensures !LooksLikeEmail("john@example")
    ensures !LooksLikeEmail("@x.io")
  {
    assert EmailMatchAt("john.doe@example.com", 8, 16);
    var s := "john@example";
    assert forall k | 0 <= k < |s| :: s[k] != '.';
  }

  /** Some record other than the one being edited already carries `email`
      (`users.find(u => u.email === email && (!isEditMode || u.id !== id))`). */
  predicate EmailTaken(users: seq<User>, email: string, mode: Mode) {
    FindFirst((u: User) => ClashesWith(u, email, mode), users).Some?
  }

  /** `u` carries `email` and is not the record being edited. */
  predicate ClashesWith(u: User, email: string, mode: Mode) {
    u.email == email && (mode.CreateMode? || u.id != mode.id)
  }

  /** The email message: required, else invalid, else already taken. */
  function EmailError(form: FormData, users: seq<User>, mode: Mode): (r: Option<string>)
    ensures r == Some(EMAIL_REQUIRED) <==> Trim(form.email) == ""
    ensures r == Some(EMAIL_INVALID) <==> Trim(form.email) != "" && !LooksLikeEmail(form.email)
    ensures r == Some(EMAIL_TAKEN) <==>
              Trim(form.email) != "" && LooksLikeEmail(form.email) && EmailTaken(users, form.email, mode)
    ensures r.None? <==>
              Trim(form.email) != "" && LooksLikeEmail(form.email) && !EmailTaken(users, form.email, mode)
  {
    if Trim(form.email) == "" then Some(EMAIL_REQUIRED)
    else if !LooksLikeEmail(form.email) then Some(EMAIL_INVALID)
    else if EmailTaken(users, form.email, mode) then Some(EMAIL_TAKEN)
    else None
  }

  /** The password message: a short non-empty password is refused in both
      modes; an empty one only when creating. */
  function PasswordError(form: FormData, mode: Mode): (r: Option<string>)
    ensures r == Some(PASSWORD_TOO_SHORT) <==> form.password != "" && |form.password| < 6
    ensures r == Some(PASSWORD_REQUIRED) <==> mode.CreateMode? && form.password == ""
    ensures r.None? <==> |form.password| >= 6 || (mode.EditMode? && form.password == "")
  {
    var required := if mode.CreateMode? && form.password == "" then Some(PASSWORD_REQUIRED) else None;
    if form.password != "" && |form.password| < 6 then Some(PASSWORD_TOO_SHORT) else required
  }

  /** Adds `field: message` when a message is present. */
  function Note(errors: map<Field, string>, field: Field, message: Option<string>): (r: map<Field, string>)
    ensures r.Keys == if message.Some? then errors.Keys + {field} else errors.Keys
    ensures message.Some? ==> r[field] == message.value
    ensures forall f :: f in errors && f != field ==> r[f] == errors[f]
  {
    if message.Some? then errors[field := message.value] else errors
  }

  /** The error object built from the four fields' messages, in form order. */
  function Collect(firstName: Option<string>, lastName: Option<string>, email: Option<string>,
                   password: Option<string>): (errors: map<Field, string>)
    ensures errors.Keys <= {FirstNameField, LastNameField, EmailField, PasswordField}
    ensures FirstNameField in errors <==> firstName.Some?
    ensures LastNameField in errors <==> lastName.Some?
    ensures EmailField in errors <==> email.Some?
    ensures PasswordField in errors <==> password.Some?
    ensures FirstNameField in errors ==> errors[FirstNameField] == firstName.value
    ensures LastNameField in errors ==> errors[LastNameField] == lastName.value
    ensures EmailField in errors ==> errors[EmailField] == email.value
    ensures PasswordField in errors ==> errors[PasswordField] == password.value
  {
    var e1 := Note(map[], FirstNameField, firstName);
    var e2 := Note(e1, LastNameField, lastName);
    var e3 := Note(e2, EmailField, email);
    Note(e3, PasswordField, password)
  }

  /** The message of a required field: present exactly when the trimmed
      value is empty. */
  function RequiredMessage(value: string, message: string): (r: Option<string>)
    ensures r.Some? <==> Trim(value) == ""
    ensures r.Some? ==> r.value == message
  {
    if Trim(value) == "" then Some(message) else None
  }

  /** `validateForm`: the error object, one entry per failing field. */
  function ValidateForm(form: FormData, users: seq<User>, mode: Mode): (errors: map<Field, string>)
    ensures errors.Keys <= {FirstNameField, LastNameField, EmailField, PasswordField}
    ensures FirstNameField in errors <==> Trim(form.firstName) == ""
    ensures LastNameField in errors <==> Trim(form.lastName) == ""
    ensures FirstNameField in errors ==> errors[FirstNameField] == FIRST_NAME_REQUIRED
    ensures LastNameField in errors ==> errors[LastNameField] == LAST_NAME_REQUIRED
    ensures EmailField in errors <==> EmailError(form, users, mode).Some?
    ensures EmailField in errors ==> errors[EmailField] == EmailError(form, users, mode).value
    ensures PasswordField in errors <==> PasswordError(form, mode).Some?
    ensures PasswordField in errors ==> errors[PasswordField] == PasswordError(form, mode).value
  {
    var firstNameMessage := RequiredMessage(form.firstName, FIRST_NAME_REQUIRED);
    var lastNameMessage := RequiredMessage(form.lastName, LAST_NAME_REQUIRED);
    var emailMessage := EmailError(form, users, mode);
    var passwordMessage := PasswordError(form, mode);
    Collect(firstNameMessage, lastNameMessage, emailMessage, passwordMessage)
  }

  /** In edit mode the record being edited never makes its own email a
      duplicate; in create mode every record counts. */
  lemma DuplicateCheckScope(users: seq<User>, email: string, id: string)
    ensures EmailTaken(users, email, CreateMode) <==> exists i :: 0 <= i < |users| && users[i].email == email
    ensures EmailTaken(users, email, EditMode(id)) <==>
              exists i :: 0 <= i < |users| && users[i].email == email && users[i].id != id
  {
    if exists i :: 0 <= i < |users| && users[i].email == email {
      var i :| 0 <= i < |users| && users[i].email == email;
      assert ClashesWith(users[i], email, CreateMode);
    }
    if exists i :: 0 <= i < |users| && users[i].email == email && users[i].id != id {
      var i :| 0 <= i < |users| && users[i].email == email && users[i].id != id;
      assert ClashesWith(users[i], email, EditMode(id));
    }
  }

  /** The update payload `{ ...formData, id }`: every form field, no avatar.
      Merged into any stored record it overwrites each form field, the
      password included, and keeps only the avatar. */
  function FormPatch(form: FormData, id: string): (p: Patch)
    ensures forall u: User :: Merge(u, p) ==
              u.(id := id, email := form.email, password := Some(form.password),
                 firstName := form.firstName, lastName := form.lastName,
                 phone := Some(form.phone), bio := Some(form.bio), role := form.role)
  {
    Patch(id, Some(form.email), Some(form.password), Some(form.firstName), Some(form.lastName),
          Some(form.phone), Some(form.bio), None, Some(form.role))
  }

  /** A submission either reports errors (nothing dispatched) or saves the new
      directory and navigates to `/users`. */
  datatype SubmitOutcome = Invalid(errors: map<Field, string>) | Saved(users: seq<User>)

  /** The error object is empty exactly when all four fields pass. */
  lemma NoErrorsIffChecksPass(form: FormData, users: seq<User>, mode: Mode)
    ensures |ValidateForm(form, users, mode)| == 0 <==>
              Trim(form.firstName) != "" && Trim(form.lastName) != "" &&
              EmailError(form, users, mode).None? && PasswordError(form, mode).None?
  {
    var errors := ValidateForm(form, users, mode);
    if |errors| == 0 {
      assert errors.Keys == {};
    } else {
      var f :| f in errors;
    }
  }

  /** `handleSubmit`. The creation id's time stamp is a parameter. */
  function HandleSubmit(form: FormData, users: seq<User>, mode: Mode, freshId: string): (r: SubmitOutcome)
    ensures r.Saved? <==> Trim(form.firstName) != "" && Trim(form.lastName) != "" &&
                          EmailError(form, users, mode).None? && PasswordError(form, mode).None?
    ensures r.Invalid? ==> r.errors == ValidateForm(form, users, mode) && |r.errors| > 0
    ensures r.Saved? && mode.EditMode? ==> r.users == UpdateUser(users, FormPatch(form, mode.id))
    ensures r.Saved? && mode.CreateMode? ==> r.users == CreateUser(users, form, freshId)
  {
    var errors := ValidateForm(form, users, mode);
    NoErrorsIffChecksPass(form, users, mode);
    if |errors| > 0 then Invalid(errors)
    else if mode.EditMode? then Saved(UpdateUser(users, FormPatch(form, mode.id)))
    else Saved(CreateUser(users, form, freshId))
  }

  /** The update payload that the password field's "(leave blank to keep
      current)" label promises: a blank password is left out, so the stored
      one stays. */
  function KeepingPasswordPatch(form: FormData, id: string): (p: Patch)
    ensures form.password == "" ==> p.password.None?
    ensures form.password != "" ==> p.password == Some(form.password)
    ensures p.(password := Some(form.password)) == FormPatch(form, id)
  {
    FormPatch(form, id).(password := if form.password == "" then None else Some(form.password))
  }

  /** `handleSubmit` with the update payload corrected as above. */
  function HandleSubmitKeepingPassword(form: FormData, users: seq<User>, mode: Mode, freshId: string)
    : (r: SubmitOutcome)
    ensures r.Saved? <==> HandleSubmit(form, users, mode, freshId).Saved?
    ensures r.Saved? && mode.EditMode? ==> r.users == UpdateUser(users, KeepingPasswordPatch(form, mode.id))
    ensures mode.CreateMode? || form.password != "" ==> r == HandleSubmit(form, users, mode, freshId)
  {
    match HandleSubmit(form, users, mode, freshId)
    case Invalid(errors) => Invalid(errors)
    case Saved(saved) =>
      if mode.EditMode? then Saved(UpdateUser(users, KeepingPasswordPatch(form, mode.id))) else Saved(saved)
  }

  /** With the corrected payload, an edit submitted with a blank password
      leaves every stored password as it was. */
  lemma BlankPasswordKeepsStoredPassword(form: FormData, users: seq<User>, id: string, freshId: string)
    requires form.password == ""
    ensures var outcome := HandleSubmitKeepingPassword(form, users, EditMode(id), freshId);
            outcome.Saved? ==> |outcome.users| == |users| &&
                               forall j :: 0 <= j < |users| ==> outcome.users[j].password == users[j].password
  {
    var p := KeepingPasswordPatch(form, id);
    var saved := UpdateUser(users, p);
    var outcome := HandleSubmitKeepingPassword(form, users, EditMode(id), freshId);
    assert outcome.Saved? ==> outcome.users == saved;
    forall j | 0 <= j < |users|
      ensures saved[j].password == users[j].password
    {
      if saved[j] != users[j] {
        assert saved[j] == Merge(users[j], p);
      }
    }
  }

  /** As written, an edit submitted with a blank password stores the empty
      string as the record's password. */
  lemma BlankPasswordErasesStoredPassword(form: FormData, users: seq<User>, i: nat, freshId: string)
    requires i < |users| && form.password == ""
    requires forall k :: 0 <= k < i ==> users[k].id != users[i].id
    ensures var outcome := HandleSubmit(form, users, EditMode(users[i].id), freshId);
            outcome.Saved? ==> i < |outcome.users| && outcome.users[i].password == Some("")
  {
    UpdateHitsFirstMatch(users, FormPatch(form, users[i].id), i);
  }

  /** Such a submission is accepted: clearing the password of a record whose
      password is "secret" passes validation. */
  lemma BlankPasswordEditAccepted(stored: User, form: FormData)
    requires stored == User("2", "j@x.io", Some("secret"), "J", "D", None, None, "", USER)
    requires form == FormData("J", "D", "j@x.io", "", "", USER, "")
    ensures form == PopulateFrom(stored).(password := "")
    ensures HandleSubmit(form, [stored], EditMode("2"), "0").Saved?
  {
    SampleEmailPasses(stored);
    assert !IsSpace(form.email[0]) && !IsSpace(form.firstName[0]) && !IsSpace(form.lastName[0]);
    NotBlank(form.firstName);
    NotBlank(form.lastName);
    NotBlank(form.email);
  }

  /** The sample address is well formed and belongs only to the record being
      edited. */
  lemma SampleEmailPasses(stored: User)
    requires stored == User("2", "j@x.io", Some("secret"), "J", "D", None, None, "", USER)
    ensures LooksLikeEmail("j@x.io") && !EmailTaken([stored], "j@x.io", EditMode("2"))
  {
    assert EmailMatchAt("j@x.io", 1, 3);
    DuplicateCheckScope([stored], "j@x.io", "2");
  }

  lemma NotBlank(s: string)
    requires |s| > 0 && !IsSpace(s[0])
    ensures Trim(s) != ""
  {
    TrimEmptyIffAllSpace(s);
  }

  /** A valid creation grows the directory by one record carrying the form's
      values; a valid edit keeps its length and the records' ids. */
  lemma SubmitEffects(form: FormData, users: seq<User>, mode: Mode, freshId: string)
    ensures var outcome := HandleSubmit(form, users, mode, freshId);
            outcome.Saved? ==>
            var saved := outcome.users;
            (mode.CreateMode? ==> |saved| == |users| + 1 && saved[|users|].email == form.email &&
                                  saved[..|users|] == users) &&
            (mode.EditMode? ==> |saved| == |users| && forall j :: 0 <= j < |users| ==> saved[j].id == users[j].id)
  {
  }

  /** What the form's effect does once the directory is read. */
  datatype EffectOutcome = NoEffect | RedirectToUsers | Populate(data: FormData)

  /** The form values loaded from a stored record (absent fields become "",
      an empty role becomes "user"). */
  function PopulateFrom(u: User): (f: FormData)
    ensures f.firstName == u.firstName && f.lastName == u.lastName && f.email == u.email
    ensures f.phone == u.phone.GetOr("") && f.bio == u.bio.GetOr("") && f.password == u.password.GetOr("")
    ensures f.role == (if u.role == "" then USER else u.role)
  {
    FormData(u.firstName, u.lastName, u.email, u.phone.GetOr(""), u.bio.GetOr(""),
             if u.role == "" then USER else u.role, u.password.GetOr(""))
  }

  /** The effect: in edit mode with the record found, a viewer who may not edit
      it is sent to `/users` and the form stays empty; otherwise the form is
      filled in from the record. */
  function EditEffect(mode: Mode, users: seq<User>, current: Option<User>): (r: EffectOutcome)
    ensures mode.CreateMode? || FindById(users, mode.id).None? ==> r == NoEffect
    ensures mode.EditMode? && FindById(users, mode.id).Some? ==>
              (r == RedirectToUsers <==> !Permissions.CanEditUser(current, FindById(users, mode.id)))
    ensures r.Populate? ==>
              (mode.EditMode? && FindById(users, mode.id).Some? &&
               Permissions.CanEditUser(current, FindById(users, mode.id)) &&
               r.data == PopulateFrom(FindById(users, mode.id).value))
  {
    match mode
    case CreateMode => NoEffect
    case EditMode(id) =>
      match FindById(users, id)
      case None => NoEffect
      case Some(existing) =>
        var isOwnProfile := current.Some? && current.value.id == existing.id;
        var isAdmin := current.Some? && current.value.role == ADMIN;
        if !isOwnProfile && !isAdmin then RedirectToUsers
        else Populate(PopulateFrom(existing))
  }

  /** Loading a complete record into the form and submitting it unchanged
      gives back the record. */
  lemma PopulateThenSubmitRoundTrip(u: User)
    requires u.password.Some? && u.phone.Some? && u.bio.Some? && u.role != ""
    ensures Merge(u, FormPatch(PopulateFrom(u), u.id)) == u
  {
  }

  function GetField(form: FormData, field: Field): string
  {
    match field
    case FirstNameField => form.firstName
    case LastNameField => form.lastName
    case EmailField => form.email
    case PhoneField => form.phone
    case BioField => form.bio
    case RoleField => form.role
    case PasswordField => form.password
  }

  /** `{ ...formData, [name]: value }`. */
  function SetField(form: FormData, field: Field, value: string): (r: FormData)
    ensures GetField(r, field) == value
    ensures forall f :: f != field ==> GetField(r, f) == GetField(form, f)
  {
    match field
    case FirstNameField => form.(firstName := value)
    case LastNameField => form.(lastName := value)
    case EmailField => form.(email := value)
    case PhoneField => form.(phone := value)
    case BioField => form.(bio := value)
    case RoleField => form.(role := value)
    case PasswordField => form.(password := value)
  }

  /** `handleChange`: writes the field and blanks that field's message (if it
      had a non-empty one); every other message stays as it was. */
  function HandleChange(form: FormData, errors: map<Field, string>, field: Field, value: string)
    : (r: (FormData, map<Field, string>))
    ensures r.0 == SetField(form, field, value)
    ensures r.1.Keys == errors.Keys
    ensures field in r.1 ==> r.1[field] == ""
    ensures forall f :: f in errors && f != field ==> r.1[f] == errors[f]
  {
    var cleared := if field in errors && errors[field] != "" then errors[field := ""] else errors;
    (SetField(form, field, value), cleared)
  }
}
