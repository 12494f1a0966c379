# frontend-interview-project, modelled in Dafny

This project models the decision logic of the three front-end exercises in the
`frontend-interview-project` repository and proves properties about it:

- **User manager (React single-page application).**
  - The role-based permission predicates.
  - The user-directory store: the create, update and delete reducers and the current-profile slot.
  - Login: the credential lookup, and the session copy of the user without its password.
  - The route guard and the route table with its redirects.
  - The user form's ordered validation, its edit-permission check and its submission.
  - The detail page's edit and delete rights.
  - The list page's search and role filter.
  - The dashboard statistics.
  - The navigation bar's active-link rule.
- **Todo list component.** Adding, toggling, deleting, the three view filters, the counters and the empty-view message.
- **Portfolio widget script (`main.js`).**
  - The carousel: slide wrap-around, the active flags, preloading, swipes and arrow keys.
  - The multi-step contact form: the rule table, `validateField`, `validateStep`, the step buttons, the step indicators, the submit handler and the submission card.
  - The testimonial card: the excerpt and the author name derived from the email address.

Everything is pure functions over immutable datatypes and sequences.
- Browser state becomes an explicit value: the Redux stores, React state and the DOM.
- Effects become parameters: time-based identifiers (`Date.now()`), the fetch response and the authentication state from the session store.

Modules (one per source file, plus three shared ones):

| module | file | models |
|---|---|---|
| `Wrappers` | wrappers.dfy | `Option` (absent `null`/`undefined` values) |
| `Seqs` | seqs.dfy | `Array.prototype.filter`, `find`, subsequences and prefixes |
| `Text` | text.dfy | `trim`, `toLowerCase`/`toUpperCase` (ASCII), `includes`, `startsWith`, `split`/`join` on one character |
| `Users` | users.dfy | the user record, the form payload, lookups by id, the demonstration records |
| `Permissions` | permissions.dfy | task-2-spa/src/utils/permissions.js |
| `UserSlice` | user_slice.dfy | task-2-spa/src/store/userSlice.js |
| `Login` | login.dfy | task-2-spa/src/components/Login.jsx |
| `PrivateRoute` | private_route.dfy | task-2-spa/src/components/PrivateRoute.jsx |
| `Routes` | routes.dfy | task-2-spa/src/App.jsx |
| `Layout` | layout.dfy | task-2-spa/src/components/Layout.jsx |
| `Dashboard` | dashboard.dfy | task-2-spa/src/components/Dashboard.jsx |
| `UserList` | user_list.dfy | task-2-spa/src/components/UserList.jsx |
| `UserDetail` | user_detail.dfy | task-2-spa/src/components/UserDetail.jsx |
| `UserForm` | user_form.dfy | task-2-spa/src/components/UserForm.jsx |
| `TodoList` | todo_list.dfy | task-3-test/src/components/TodoList.jsx |
| `Carousel` | carousel.dfy | task-1-frontend/src/js/main.js, `initCarousel` |
| `ContactForm` | contact_form.dfy | task-1-frontend/src/js/main.js, `initMultiStepForm` |
| `Testimonials` | testimonials.dfy | task-1-frontend/src/js/main.js, `loadTestimonials` and `createTestimonialCard` |

All files are verified together: `dafny verify *.dfy`.

## Model

| member | source | states |
|---|---|---|
| Users.FindById | task-2-spa/src/store/userSlice.js:65 | `users.find` by id: the result is the first record of the list carrying the id (no earlier record carries it), and it is absent exactly when no record carries it |
| Users.FindByIdUnique | task-2-spa/src/components/UserDetail.jsx:14 | with unique ids, looking up a record's own id finds that record |
| Users.DemoUsersWellFormed | task-2-spa/src/store/userSlice.js:10-33 | the two demonstration records have distinct ids; the first is an administrator and the second is not |
| Permissions.IsAdmin | task-2-spa/src/utils/permissions.js:45-47 | a session user is an administrator when present with the role "admin"; an absent user is not (the optional chaining) |
| Permissions.CanEditUser | task-2-spa/src/utils/permissions.js:10-18 | false when either user is absent; an administrator may edit anyone, anyone else only the record with their own id |
| Permissions.CanDeleteUser | task-2-spa/src/utils/permissions.js:20-33 | true exactly when both users are present, the current one is an administrator, the ids differ and the target is not an administrator |
| Permissions.CanCreateUser | task-2-spa/src/utils/permissions.js:35-38 | coincides with `isAdmin` of the current user (false when absent) |
| Permissions.CanChangeRole | task-2-spa/src/utils/permissions.js:40-43 | coincides with `isAdmin` of the current user (false when absent) |
| Permissions.HasPermission | task-2-spa/src/utils/permissions.js:49-61 | agrees with the matching predicate for the four known names and is false for any other name |
| Permissions.NoUserNoPermission | task-2-spa/src/utils/permissions.js:11-41 | without a current user no permission of any name is granted |
| Permissions.NoSelfDeletion | task-2-spa/src/utils/permissions.js:27 | nobody, whatever the role, may delete the record with their own id |
| Permissions.DeleteImpliesEdit | task-2-spa/src/utils/permissions.js:10-33 | whoever may delete a record may also edit it |
| Permissions.EditSelf | task-2-spa/src/utils/permissions.js:14-17 | every user may edit their own record |
| UserSlice.AvatarUrl | task-2-spa/src/store/userSlice.js:51 | the avatar address is the service prefix, then `first+last`, then the fixed suffix |
| UserSlice.AvatarUrlDeterminedByNames | task-2-spa/src/store/userSlice.js:51 | two avatar addresses are equal exactly when their `first+last` segments are equal |
| UserSlice.CreateUser | task-2-spa/src/store/userSlice.js:47-53 | the list grows by one; earlier records are unchanged and in order; the new record carries the payload's fields, the fresh id and the derived avatar |
| UserSlice.CreateKeepsIdsUnique | task-2-spa/src/store/userSlice.js:48-53 | creation with an id no record carries keeps ids unique |
| UserSlice.Merge | task-2-spa/src/store/userSlice.js:59 | shallow merge: every field present in the payload wins, the others are kept |
| UserSlice.MergeIdempotent | task-2-spa/src/store/userSlice.js:59 | merging the same payload twice is merging it once |
| UserSlice.MergeOwnValues | task-2-spa/src/store/userSlice.js:59 | merging a record's own values changes nothing |
| UserSlice.UpdateUser | task-2-spa/src/store/userSlice.js:56-62 | an unknown id leaves the list unchanged; length and ids are kept; a record that changes carries the id, receives the merge, and no earlier record carries the id |
| UserSlice.UpdateHitsFirstMatch | task-2-spa/src/store/userSlice.js:57-59 | the first record with the payload's id does receive the merge |
| UserSlice.UpdateIdempotent | task-2-spa/src/store/userSlice.js:56-62 | applying the same update twice equals applying it once |
| UserSlice.UpdateWithOwnValues | task-2-spa/src/store/userSlice.js:56-62 | updating the first record of an id with its own values changes nothing |
| UserSlice.DeleteUser | task-2-spa/src/store/userSlice.js:63-72 | an unknown id or an administrator found first leaves the list unchanged; otherwise every record with the id is removed, the others stay in order with every copy kept (the length is the number of records with another id), and the list shrinks |
| UserSlice.DeleteNeverRemovesAdmin | task-2-spa/src/store/userSlice.js:65-69 | with unique ids, no administrator record is ever removed and at most one record is |
| UserSlice.OnlyOneCarriesId | task-2-spa/src/store/userSlice.js:69 | with unique ids, filtering out an id that occurs removes exactly one record |
| UserSlice.DuplicateIdsExposeAdmin | task-2-spa/src/store/userSlice.js:65-69 | the administrator check looks only at the first record of an id, so when ids repeat an administrator sharing an ordinary record's id is removed with it |
| UserSlice.Reduce | task-2-spa/src/store/userSlice.js:46-79 | the list actions touch only the list; setting or clearing the current profile touches only that slot |
| UserSlice.ReduceKeepsIdsUnique | task-2-spa/src/store/userSlice.js:47-72 | every reducer step keeps ids unique when creation uses a fresh id |
| Login.HandleChange | task-2-spa/src/components/Login.jsx:17-23 | a change writes only the named field and clears the error |
| Login.SafeUser | task-2-spa/src/components/Login.jsx:35 | the session copy has no password and is otherwise the record |
| Login.HandleSubmit | task-2-spa/src/components/Login.jsx:25-46 | success exactly when some record matches email and password exactly; the session user is the first match without its password; the token is `token_` and the stamp; a failure carries the fixed message |
| Login.FormAfterSubmit | task-2-spa/src/components/Login.jsx:43-45 | a failure shows "Invalid email or password" and keeps the typed values |
| Login.SessionUserMirrorsRecord | task-2-spa/src/components/Login.jsx:29-40 | the session user is a stored record with only its password removed |
| Login.DemoAdminLogin | task-2-spa/src/components/Login.jsx:29-42 | the demonstration administrator logs in with the published credentials, and the session copy has no password |
| Login.WrongPasswordRefused | task-2-spa/src/components/Login.jsx:43-45 | a wrong password is refused with the generic message |
| PrivateRoute.Guard | task-2-spa/src/components/PrivateRoute.jsx:4-16 | unauthenticated goes to login; authenticated renders exactly when admin is not required or the user is an administrator, and otherwise goes to the dashboard |
| PrivateRoute.DefaultGuardOnlyChecksAuthentication | task-2-spa/src/components/PrivateRoute.jsx:4-15 | with the default `requireAdmin = false` any authenticated user passes |
| PrivateRoute.AdminGuardMatchesCreatePermission | task-2-spa/src/components/PrivateRoute.jsx:11-15 | an administrators-only page renders exactly for users who may create users |
| Routes.Resolve | task-2-spa/src/App.jsx:27-83 | login and register redirect to the dashboard exactly when authenticated; the creation form renders exactly for an authenticated administrator, an unauthenticated visitor asking for it goes to login and a non-administrator to the dashboard; `/` goes to the dashboard or login; any other path goes to `/`; the creation form renders only for an authenticated administrator |
| Routes.Protected | task-2-spa/src/components/PrivateRoute.jsx:4-16 | a page wrapped in the guard renders exactly when the visitor is authenticated and, where administrators are required, is one; otherwise login without a session and the dashboard for a non-administrator |
| Routes.Settle | task-2-spa/src/App.jsx:27-83 | the page reached by following at most the given number of redirects from a path, or none when more are needed |
| Routes.AuthenticationOnlyRoutes | task-2-spa/src/App.jsx:37-76 | dashboard, list, detail and edit pages render for any authenticated user and send everyone else to login |
| Routes.OnlyCreationIsRoleGated | task-2-spa/src/App.jsx:27-83 | every route but user creation resolves the same whatever the user's role |
| Routes.EveryRouteSettles | task-2-spa/src/App.jsx:27-83 | every path reaches a page within two redirects: only login or registration without a session, never them with one, and the creation form only for an administrator |
| Routes.NonAdminCreateLandsOnDashboard | task-2-spa/src/App.jsx:53-60 | a signed-in non-administrator asking for `/users/create` ends up on the dashboard |
| Layout.IsActiveCharacterized | task-2-spa/src/components/Layout.jsx:18-20 | a path activates its own link and every link it lies below; text that continues a link without a slash does not |
| Layout.IsActive | task-2-spa/src/components/Layout.jsx:18-20 | a link is active on its own path and below it, as `pathname === path \|\| pathname.startsWith(path + '/')` |
| Layout.UserPagesHighlightUsers | task-2-spa/src/components/Layout.jsx:34-39 | the detail and edit pages of a user highlight the users link and not the dashboard link |
| Layout.PageChrome | task-2-spa/src/components/Layout.jsx:24-67 | the navbar and the footer are shown exactly when the visitor is authenticated, and the main class is "main-content" with them and "main-content-public" without |
| Layout.NavbarOnlyInsideTheApplication | task-2-spa/src/components/Layout.jsx:24-57 | the navbar shows exactly on the pages other than login and registration that a session settles on |
| Dashboard.ComputeStats | task-2-spa/src/components/Dashboard.jsx:12-16 | the total is the list length; the admin count is the number of records whose role is "admin" and the regular count the number whose role is "user"; the two never exceed the total, and equal it when every role is one of the two |
| Dashboard.CreateUpdatesStats | task-2-spa/src/components/Dashboard.jsx:12-16 | creating a user raises the total by one and the count of its role by one |
| Dashboard.DeleteKeepsAdminCount | task-2-spa/src/components/Dashboard.jsx:14 | with unique ids, a deletion never changes the administrator count |
| Dashboard.AdminCountIgnoresNonAdmins | task-2-spa/src/components/Dashboard.jsx:14 | removing records none of which is an administrator keeps the administrator count |
| Dashboard.RecentUsers | task-2-spa/src/components/Dashboard.jsx:74 | the recent list is a prefix of the directory of length min(5, n) |
| Dashboard.ShowCreateLink | task-2-spa/src/components/Dashboard.jsx:58-62 | the create link shows exactly for users who may create users |
| UserList.FilterUsers | task-2-spa/src/components/UserList.jsx:15-24 | the result is an order-preserving subsequence; every shown user matches search and role, and every matching user is shown |
| UserList.EmptySearchListsEveryone | task-2-spa/src/components/UserList.jsx:15-24 | an empty term with the "all" filter lists everyone |
| UserList.SearchIgnoresTermCase | task-2-spa/src/components/UserList.jsx:16-19 | the search term's case does not change the result |
| UserList.Header | task-2-spa/src/components/UserList.jsx:13-59 | the shown count is the length of the filtered list, that is the number of records matching both the search and the role filter; it never exceeds the total, equals it with no search and no role filter, and the create link shows exactly for administrators |
| UserDetail.ViewDetail | task-2-spa/src/components/UserDetail.jsx:14-35 | a missing record redirects to the list; otherwise own-profile is id equality, the edit link shows exactly when `canEditUser` allows, the delete button exactly for an administrator viewing another record |
| UserDetail.DeleteButtonVersusPermission | task-2-spa/src/components/UserDetail.jsx:35 | whenever `canDeleteUser` allows, the button shows; the button shows beyond it exactly when an administrator views another administrator |
| UserDetail.StoreRefusesWhatThePageOffers | task-2-spa/src/components/UserDetail.jsx:23-26 | the deletion offered beyond `canDeleteUser` leaves the directory unchanged |
| UserDetail.AdminViewingAdmin | task-2-spa/src/components/UserDetail.jsx:32-35 | concrete case: an administrator is offered the delete button on another administrator's page, and the deletion changes nothing |
| UserForm.LooksLikeEmailExamples | task-2-spa/src/components/UserForm.jsx:82 | the unanchored `\S+@\S+\.\S+` test accepts an ordinary address and refuses one without a dot after the `@` or without text before it |
| UserForm.LooksLikeEmail | task-2-spa/src/components/UserForm.jsx:82 | the unanchored `\S+@\S+\.\S+` test: somewhere a non-blank run, an `@`, a non-blank run, a dot and a non-blank character |
| UserForm.EmailError | task-2-spa/src/components/UserForm.jsx:80-92 | exactly one of required, invalid, taken or none, checked in that order |
| UserForm.PasswordError | task-2-spa/src/components/UserForm.jsx:94-100 | a short non-empty password is refused in both modes, an empty one only when creating, and the length message wins |
| UserForm.RequiredMessage | task-2-spa/src/components/UserForm.jsx:72-78 | a name message is present exactly when the trimmed value is empty |
| UserForm.ValidateForm | task-2-spa/src/components/UserForm.jsx:69-103 | the error object has an entry for a field exactly when that field's check fails, holding that check's message, and no other keys |
| UserForm.NoErrorsIffChecksPass | task-2-spa/src/components/UserForm.jsx:69-111 | the error object is empty exactly when both names are non-blank and the email and password checks pass, which is when the submit goes ahead |
| UserForm.FormPatch | task-2-spa/src/components/UserForm.jsx:115 | the update payload `{ ...formData, id }`: merged into any stored record it overwrites every form field, the password included, and keeps only the avatar |
| UserForm.DuplicateCheckScope | task-2-spa/src/components/UserForm.jsx:86-88 | creation compares against every record; an edit ignores the record being edited |
| UserForm.HandleSubmit | task-2-spa/src/components/UserForm.jsx:105-121 | saves exactly when every check passes; invalid submissions dispatch nothing and report the non-empty error object; a valid edit dispatches the update, a valid creation the create |
| UserForm.SubmitEffects | task-2-spa/src/components/UserForm.jsx:114-118 | a valid creation appends one record with the form's email; a valid edit keeps the length and every id |
| UserForm.BlankPasswordErasesStoredPassword | task-2-spa/src/components/UserForm.jsx:114-115 | as written, an edit with a blank password stores the empty string as the password |
| UserForm.BlankPasswordEditAccepted | task-2-spa/src/components/UserForm.jsx:94-100 | such an edit passes validation: a record whose stored password is "secret" is saved with a blank one |
| UserForm.KeepingPasswordPatch | task-2-spa/src/components/UserForm.jsx:219-220 | the payload the "leave blank to keep current" label promises: a blank password is left out; it differs from the written payload only in the password |
| UserForm.HandleSubmitKeepingPassword | task-2-spa/src/components/UserForm.jsx:105-121 | the corrected submission accepts the same inputs, and differs from the written one only for an edit with a blank password |
| UserForm.BlankPasswordKeepsStoredPassword | task-2-spa/src/components/UserForm.jsx:219-220 | with the corrected payload, an edit with a blank password keeps every stored password |
| UserForm.PopulateFrom | task-2-spa/src/components/UserForm.jsx:43-51 | the form is filled from the record; absent fields become empty and an empty role becomes "user" |
| UserForm.EditEffect | task-2-spa/src/components/UserForm.jsx:32-53 | in edit mode with the record found, a viewer who may not edit it is redirected and the form stays empty; otherwise the form is filled from the record; nothing happens when creating or when the record is missing |
| UserForm.PopulateThenSubmitRoundTrip | task-2-spa/src/components/UserForm.jsx:43-51 | loading a complete record into the form and submitting it unchanged gives back the record |
| UserForm.SetField | task-2-spa/src/components/UserForm.jsx:55-59 | the named field gets the value and the other fields keep theirs |
| UserForm.HandleChange | task-2-spa/src/components/UserForm.jsx:55-67 | the field is written; only that field's message is blanked, and the other messages and keys are unchanged |
| TodoList.InitialState | task-3-test/src/components/TodoList.jsx:7-10 | the list starts from the initial todos with an empty input and the "all" filter |
| TodoList.AddTodo | task-3-test/src/components/TodoList.jsx:12-17 | blank input changes nothing; otherwise exactly one open item with the untrimmed text is appended and the input is cleared |
| TodoList.KeyPress | task-3-test/src/components/TodoList.jsx:47 | only Enter adds |
| TodoList.ToggleTodo | task-3-test/src/components/TodoList.jsx:19-23 | length, ids and texts are kept; an item's flag flips exactly when it carries the id |
| TodoList.ToggleTwice | task-3-test/src/components/TodoList.jsx:19-23 | toggling the same id twice restores the list |
| TodoList.ToggleUnknownId | task-3-test/src/components/TodoList.jsx:19-23 | toggling an id no item carries changes nothing |
| TodoList.DeleteTodo | task-3-test/src/components/TodoList.jsx:25-27 | every item with the id is removed and the others stay in order with every copy kept: the length is the number of items with another id |
| TodoList.DeleteUndoesAdd | task-3-test/src/components/TodoList.jsx:12-27 | deleting a just-added item whose id was new gives back the previous list |
| TodoList.FilteredTodos | task-3-test/src/components/TodoList.jsx:29-33 | the view is an order-preserving subsequence that holds exactly the items the filter accepts |
| TodoList.AllShowsEverything | task-3-test/src/components/TodoList.jsx:29-33 | the "all" view is the list itself |
| TodoList.CountersOf | task-3-test/src/components/TodoList.jsx:35-36 | the active and completed counts are the sizes of the two views and add up to the list length |
| TodoList.ToggleKeepsTotal | task-3-test/src/components/TodoList.jsx:35-36 | toggling never changes the total count |
| TodoList.ActiveEmptyIffAllDone | task-3-test/src/components/TodoList.jsx:30-35 | the active view is empty exactly when every item is completed |
| TodoList.EmptyMessage | task-3-test/src/components/TodoList.jsx:81-84 | no message while the view has items; "No todos yet!" for "all", "No {filter} todos." otherwise |
| TodoList.NoTodosYetIffEmpty | task-3-test/src/components/TodoList.jsx:81-84 | "No todos yet!" shows exactly when the list itself is empty |
| Carousel.ShowSlide | task-1-frontend/src/js/main.js:85-118 | with slides, the index wraps below zero to the last slide and past the end to the first, and otherwise is kept; with none, the lookup fails |
| Carousel.NextSlide | task-1-frontend/src/js/main.js:121-123 | one slide on, and from the last slide back to the first; nothing without slides |
| Carousel.PrevSlide | task-1-frontend/src/js/main.js:125-127 | one slide back, and from the first slide to the last; nothing without slides |
| Carousel.Advance | task-1-frontend/src/js/main.js:129-131 | the slide reached after k autoplay ticks (`setInterval(nextSlide, …)`) or next presses is always one of the slides; its composition and full-cycle laws are the lemmas below |
| Carousel.NavigationIsModular | task-1-frontend/src/js/main.js:121-127 | next and previous are plus and minus one modulo the slide count |
| Carousel.NextPrevInverse | task-1-frontend/src/js/main.js:121-127 | previous undoes next, and next undoes previous |
| Carousel.AdvanceWithinRange | task-1-frontend/src/js/main.js:121-131 | short of the last slide, k autoplay steps move k slides on |
| Carousel.AdvanceCompose | task-1-frontend/src/js/main.js:121-131 | a steps then b steps is a+b steps |
| Carousel.FullCycleReturns | task-1-frontend/src/js/main.js:121-131 | autoplay reaches the last slide, wraps to the first, and is back after as many steps as there are slides |
| Carousel.Render | task-1-frontend/src/js/main.js:95-118 | a slide or indicator is active exactly when its index is the current one; the preloaded slide exists |
| Carousel.ExactlyOneActive | task-1-frontend/src/js/main.js:96-105 | exactly one slide is active; exactly one indicator is when the current index has one, none otherwise |
| Carousel.PreloadIsNext | task-1-frontend/src/js/main.js:113-118 | the preloaded slide is the one next would show, and differs from the current one when there are two slides or more |
| Carousel.HandleSwipe | task-1-frontend/src/js/main.js:187-212 | a rightward travel over 50 goes back, a leftward one over 50 goes forward, anything within 50 does nothing |
| Carousel.SwipeMirror | task-1-frontend/src/js/main.js:200-212 | the reverse swipe does the opposite |
| Carousel.ApplySwipe | task-1-frontend/src/js/main.js:200-212 | the slide after a swipe is the current, previous or next one, as the swipe decides |
| Carousel.SwipeThereAndBack | task-1-frontend/src/js/main.js:200-212 | a swipe followed by the reverse swipe comes back to the same slide |
| Carousel.KeyDown | task-1-frontend/src/js/main.js:164-174 | left arrow goes back, right arrow forward, any other key does nothing |
| ContactForm.ParseName | task-1-frontend/src/js/main.js:318-322 | a `name` attribute is classified so that only unknown names have no rule |
| ContactForm.RuleFor | task-1-frontend/src/js/main.js:280-316 | the seven named fields have rules and nothing else does; every rule but the phone's is required |
| ContactForm.EmailAddressExamples | task-1-frontend/src/js/main.js:294-296 | the anchored address pattern accepts `jo@site.io` and refuses a missing dot and a doubled `@` |
| ContactForm.IsLettersAndSpaces | task-1-frontend/src/js/main.js:284 | the name pattern `^[a-zA-Z\s]+$`: non-empty, ASCII letters and white space only |
| ContactForm.IsPhoneCharacters | task-1-frontend/src/js/main.js:300 | the phone pattern `^[\d\s\-\+\(\)]+$`: non-empty, digits, white space, `-`, `+` and parentheses only |
| ContactForm.IsEmailAddress | task-1-frontend/src/js/main.js:295 | the anchored address pattern `^[^\s@]+@[^\s@]+\.[^\s@]+$` |
| ContactForm.ValidateField | task-1-frontend/src/js/main.js:318-355 | no rule gives no verdict; a field passes exactly when its trimmed value is acceptable, meaning empty only if optional and otherwise long enough and matching; a failure shows the rule's message; an empty optional field is cleared |
| ContactForm.TrimmedBeforeChecks | task-1-frontend/src/js/main.js:324 | surrounding white space never changes a verdict |
| ContactForm.BlankFields | task-1-frontend/src/js/main.js:327-337 | a blank required field fails with its message; the blank optional phone field is cleared |
| ContactForm.ShortNameAccepted | task-1-frontend/src/js/main.js:281-286 | " Jo " is accepted as a first name |
| ContactForm.BadNamesRefused | task-1-frontend/src/js/main.js:339-349 | "J" is too short and "J0" does not match, both with the name message |
| ContactForm.OnBlur | task-1-frontend/src/js/main.js:442-446 | leaving a field validates it exactly when its raw value is non-empty |
| ContactForm.OnInput | task-1-frontend/src/js/main.js:448-452 | typing re-validates exactly while the field shows an error |
| ContactForm.BlurOnBlanks | task-1-frontend/src/js/main.js:441-446 | leaving a required field that holds only blanks shows its error; leaving an empty one does not |
| ContactForm.StepValidIffAllPass | task-1-frontend/src/js/main.js:376-388 | a step is valid exactly when each of its fields passes |
| ContactForm.StepValid | task-1-frontend/src/js/main.js:376-388 | a step's required controls all pass `validateField` |
| ContactForm.AllPass | task-1-frontend/src/js/main.js:379-387 | the `isValid` flag the `forEach` loop leaves: true exactly when every verdict passes |
| ContactForm.ValidateStep | task-1-frontend/src/js/main.js:376-388 | every required control of the step is validated, with no short-circuit, and the step is valid exactly when all pass |
| ContactForm.NextStep | task-1-frontend/src/js/main.js:421-429 | next moves one step on exactly when the step is valid and not the last, and otherwise stays |
| ContactForm.PrevStep | task-1-frontend/src/js/main.js:432-438 | previous moves one step back from any step above the first |
| ContactForm.Press | task-1-frontend/src/js/main.js:421-438 | a button press keeps the step in range |
| ContactForm.Run | task-1-frontend/src/js/main.js:421-438 | the step shown after a sequence of next and previous presses |
| ContactForm.RunStaysInRange | task-1-frontend/src/js/main.js:421-438 | no sequence of presses leaves the range of steps, and each press moves at most one step |
| ContactForm.NextOnInvalidStepStays | task-1-frontend/src/js/main.js:421-438 | next on an invalid step stays; previous after a successful next comes back |
| ContactForm.StepMarks | task-1-frontend/src/js/main.js:394-402 | indicators before the current step are completed, the current one is active, later ones are neither |
| ContactForm.CompletedCount | task-1-frontend/src/js/main.js:394-402 | as many indicators are completed as there are steps before the current one (bounded by the indicator count) |
| ContactForm.SubmitForm | task-1-frontend/src/js/main.js:456-492 | the form is valid exactly when every step is; then the first step is shown, otherwise the last failing step |
| ContactForm.FormValidMeansEveryFieldPasses | task-1-frontend/src/js/main.js:459-470 | a valid form means every required control of every step passed its rule |
| ContactForm.Submission | task-1-frontend/src/js/main.js:478-483 | the card's name is the two names joined by a space; the body is the description, or the thank-you line when it is empty; the company is the given one, or "Client" |
| ContactForm.ValidDescriptionIsKept | task-1-frontend/src/js/main.js:478-483 | a description that passed validation is never replaced by the thank-you line |
| Testimonials.Excerpt | task-1-frontend/src/js/main.js:563-566 | a body of at most 150 characters is kept; a longer one becomes its first 150 characters followed by "..." |
| Testimonials.ExcerptIdempotent | task-1-frontend/src/js/main.js:564-566 | an excerpt has at most 153 characters, and cutting it again changes nothing |
| Testimonials.LocalPart | task-1-frontend/src/js/main.js:558 | the text before the first `@`: a prefix of the address with no `@`, followed by `@` unless it is the whole address |
| Testimonials.Capitalize | task-1-frontend/src/js/main.js:560 | the first character is upper-cased and the rest kept |
| Testimonials.CapitalizeAll | task-1-frontend/src/js/main.js:559-560 | each word is capitalised |
| Testimonials.DisplayName | task-1-frontend/src/js/main.js:557-561 | the author name derived from an address is its local part read one character at a time: every dot becomes a space and each word's first letter is upper-cased |
| Testimonials.JoinCapitalized | task-1-frontend/src/js/main.js:558-561 | capitalising dot-free words and joining them with spaces is reading their dot-joined text one character at a time |
| Testimonials.DisplayNameIsTitleCase | task-1-frontend/src/js/main.js:557-561 | the author name is the local part with every dot turned into a space and each word's first letter upper-cased, and has the same length |
| Testimonials.LocalPartExample | task-1-frontend/src/js/main.js:558 | the local part of `jo.li@x.io` is `jo.li` |
| Testimonials.DisplayNameExample | task-1-frontend/src/js/main.js:557-561 | `jo.li@x.io` is shown as "Jo Li" |
| Testimonials.CreateCard | task-1-frontend/src/js/main.js:553-581 | a card holds the excerpt, the derived name and the fixed "Client" line |
| Testimonials.LoadTestimonials | task-1-frontend/src/js/main.js:520-551 | a failed request shows the error paragraph; otherwise one card per comment, in order |

## Left out

- Persistence in `localStorage`: the store is an in-memory sequence, and `DemoUsers` is the state loaded when nothing is stored.
- `Date.now()`: the new user's id, the login token's stamp and the todo id are parameters. Freshness is assumed only by the lemmas that need it.
- The session store and registration page: `authSlice` and `Register.jsx` are not part of this model. `isAuthenticated` and the session user are parameters, and registration is only a route outcome.
- Route matching: paths reach `Routes.Resolve` already classified by react-router, and its matching rules are not modelled.
- Regular expressions are hand-written character checks:
  - `\s` is the ECMAScript white-space and line-terminator set;
  - the name, phone and address patterns are character classes;
  - the user form's unanchored email test is an explicit match position.
- Text.Lower: `toLowerCase`/`toUpperCase` are modelled on ASCII letters only. Other letters are left unchanged, unlike JavaScript's full Unicode mapping.
- String lengths count characters, not UTF-16 code units. This affects the password length check, the contact form's minimum lengths and the 150-character excerpt.
- ContactForm.SubmitForm: takes each step's `validateStep` result, not the step's fields. `ContactForm.ValidateStep` and `ContactForm.FormValidMeansEveryFieldPasses` relate those results to the fields.
- ContactForm.RuleFor: an inherited key such as `constructor` is found by `validationRules[name]` in the page, and every check then reads `undefined` and passes; `NoRule` gives the same passing verdict, so such names are not modelled separately.
- ContactForm.FormValidMeansEveryFieldPasses: covers only the controls marked `required`. The phone input has a rule but no `required` attribute, so `validateStep` never selects it. Its rule runs only on blur and input, and a submission whose phone is `abc` still succeeds.
- ContactForm.ValidateStep: the page chooses which controls of a step are `required`; the model is given that list.
- The user form's role select is disabled for non-administrators (UserForm.jsx line 208). This is markup, so the form data is taken as given.
- Zero slides or steps: `showSlide` then throws, when it reads the selected slide's image, and `Carousel.ShowSlide` returns `None`. The step handlers are only defined for a current step inside the form (`current < stepCount`).
- DOM and browser effects:
  - class and ARIA updates beyond the modelled flags;
  - autoplay timers and the pause on hover and focus;
  - lazy loading through `IntersectionObserver`;
  - smooth scrolling, keyboard focus handling, `debounce` and `throttle`;
  - the navigation and mega-menu toggles;
  - `alert`, `console.log` and `form.reset`;
  - inserting the submission card into the page.
- The progress bar's percentage, which is floating point.
- The fetch in `loadTestimonials` is reduced to its outcome: the parsed comments, or `None` when the request or parsing fails.
- Touch coordinates (`screenX`) are integers.
- `UserProfile.jsx` and its application shell: an asynchronous fetch with a stale-response race, which is concurrency and network input.
- The WordPress theme and the gulp build configuration: foreign platform calls, markup and build settings.
- The delete confirmation modal's open and closed state in `UserDetail.jsx`: presentation only. The confirmed deletion is modelled by `UserDetail.StoreRefusesWhatThePageOffers` and `UserSlice.DeleteUser`.

## Findings

| source | as written | input that shows it | evidently intended | confidence | as-written member | corrected member |
|---|---|---|---|---|---|---|
| task-2-spa/src/components/UserForm.jsx:115 | the edit payload `{ ...formData, id }` always includes `password`. A blank password passes validation in edit mode, and the shallow merge in `updateUser` (userSlice.js line 59) stores the empty string. | editing the record `{id: "2", password: "secret", …}`, clearing the pre-filled password field (line 50 fills it with the stored one) and submitting; the record is saved with password "" | the label at line 220 says "(leave blank to keep current)": a blank password should leave the stored one unchanged | not executed | UserForm.BlankPasswordErasesStoredPassword | UserForm.BlankPasswordKeepsStoredPassword |
