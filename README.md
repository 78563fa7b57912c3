# interview-prep core, modelled in Dafny

This project models the core of *interview-prep*, a Django site where people practise interviews with AI tutors. The model covers the following parts:

- **Credit ledger** (`billing.dfy`). A billing profile holds running totals of credits and usage. Its balance is credits minus usage. `AddCredits` books a positive amount and records a transaction. `UseCredits` charges a positive amount. When the balance is short and auto-recharge is on, `UseCredits` first books one automatic recharge, but only if this month's automatic recharges plus the recharge amount stay within the monthly limit. It then adds the charge to usage and books it to a usage session. That session is the one passed in, or the most recently updated session from the last 30 minutes, or a new one.
- **Five-dollar promotion migration** (`five_dollar_migration.dfy`). It adds $5.00 of credit and a `promotion` transaction to every profile. Its reverse does nothing.
- **Flash-card review** (`flashcard_review.dfy`). `NextReview` picks the next card side to review. Sides reviewed before come first; sides never reviewed come next; otherwise there is no card. `Review` checks a submitted review status.
- **Tutor lookup middleware** (`tutors.dfy`, `tutor_middleware.dfy`). It attaches the tutor named by the URL to the request. When the URL names no tutor, it attaches the only tutor if exactly one exists.
- **Prompt overrides** (`tutor_prompts.dfy`). Users can override the prompt values that a tutor's configuration whitelists. The model covers saving and deleting an override, and reading the default value at each whitelisted dotted path.
- **Invitations** (`user_views.dfy`). Staff can invite an email address. Deleting an invitation disables the non-staff user who accepted it.
- **Account adapter** (`account_adapter.dfy`). The model covers the login-form check, invite-only sign-up, the client IP from `X-Forwarded-For`, and filling in a username from the email.

`strings.dfy` defines the Python string operations the source relies on: `str.split`, `split(sep)[0]`, `str.strip` with Python's whitespace set, and ASCII case-insensitive comparison. `wrappers.dfy` defines `Option` and `Result`.

`Billing.LedgerScenario` is a usage demonstration and models no source function. It follows the scenarios of `app/tests/test_billing_models.py` and asserts what a caller can conclude from the ledger's contracts alone. It has no row in the table below.

Modelling conventions:
- Money is a whole number of cents (`$5.00` is `500`).
- Times are whole seconds. The current time and the start of the current month are parameters (`now`, `monthStart`).
- An exception raised by the source becomes a `Failure` value, or a distinct response value for views.
- Database tables are sequences or maps held in class fields, or passed as values. Some rows the source updates in place are class instances: `BillingProfile`, `Session`, the login form and the unsaved user. Two are values instead. A `User` row that `delete_invitation` deactivates is a `User` datatype value, replaced inside `Accounts.users`. A `TutorPromptOverride` row that `update_or_create` updates is an entry of the override map, reassigned under its key.
- `FlashCard.is_due_for_review` is not part of this model. It is a parameter `isDue`.
- `random.choice` is replaced by a caller-supplied `pick`, and the model picks index `pick % |list|`.
- `uuid.uuid4().hex` is a 32-character parameter `uuidHex`.

## Model

| member | source | states |
|---|---|---|
| Strings.Split | app/main/views/tutor_views.py:28 | `str.split(sep)` returns at least one piece, and no piece contains the separator. There is exactly one piece iff the separator does not occur. |
| Strings.JoinSplit | app/main/views/tutor_views.py:28 | Joining the pieces of a split with the separator gives back the original string. |
| Strings.SplitJoin | app/main/views/tutor_views.py:28 | Splitting a join of separator-free pieces gives back those pieces. |
| Strings.SplitNoSeparator | app/main/views/tutor_views.py:28 | A string without the separator splits into itself alone. |
| Strings.SplitAfterPrefix | app/main/views/tutor_views.py:28 | Splitting `p + sep + t` gives `p` followed by the pieces of `t` when `p` is separator-free. |
| Strings.Before | app/config/account_adapter.py:186 | `s.split(sep)[0]` is the longest separator-free prefix of `s`. It is followed by the separator or by the end of `s`, and it equals `s` when the separator is absent. |
| Strings.BeforeIsPrefix | app/config/account_adapter.py:199 | The first piece of `Split` is a prefix of the string, followed by the separator or by the end of the string. |
| Strings.TrimStart | app/main/views/tutor_views.py:45 | The result is a suffix of the input that does not start with whitespace, and everything removed is whitespace. |
| Strings.TrimEnd | app/main/views/tutor_views.py:45 | The result is a prefix of the input that does not end with whitespace, and everything removed is whitespace. |
| Strings.StripIsTrimmedSlice | app/main/views/tutor_views.py:45 | `strip()` returns a contiguous slice of the input, and only whitespace was cut away on either side. |
| Strings.Strip | app/main/views/tutor_views.py:45 | `str.strip()` never lengthens its input, and a non-empty stripped value neither starts nor ends with whitespace. |
| Strings.StripEmptyIff | app/main/views/tutor_views.py:45 | A stripped value is empty iff the input is all whitespace. This is the condition that turns a save into a delete. |
| Strings.LowerString | app/config/account_adapter.py:162 | ASCII lower-casing keeps the length and lowers each letter, leaving other characters unchanged. This is the comparison behind `__iexact`. |
| Billing.MonthAutoRecharges | app/billing/models.py:61-66 | The sum of this month's `auto_recharge` amounts is never negative when every logged amount is positive. |
| Billing.MonthAutoRechargesAppend | app/billing/models.py:62-66 | The monthly sum over two transaction lists is the sum of their monthly sums. |
| Billing.MonthAutoRechargesIgnores | app/billing/models.py:62-65 | A log without `auto_recharge` rows has a monthly sum of `0`, so recharges, refunds, adjustments and promotions never count towards the cap. |
| Billing.Session.constructor | app/billing/models.py:93-97 | A new session has the given cost and tokens, and it was created and updated at `now`. |
| Billing.Session.AddUsage | app/billing/models.py:122-129 | `add_usage` adds the cost and tokens and sets `updated_at` to `now`. |
| Billing.RecentSession | app/billing/models.py:84-87 | The result is null iff no session was updated at or after the cutoff. Otherwise it is one of the profile's sessions, updated at or after the cutoff, with no session updated later. |
| Billing.BillingProfile.constructor | app/billing/models.py:15-19 | A new profile has auto-recharge off, zero amounts and limits, zero totals, and no transactions or sessions. |
| Billing.BillingProfile.AddCredits | app/billing/models.py:31-48 | A non-positive amount fails with nothing changed. Otherwise credits grow by the amount and one transaction of the given type is appended. The new balance is returned and the ledger invariant is kept. |
| Billing.BillingProfile.CanRecharge | app/billing/models.py:59-68 | The auto-recharge may run: it is enabled, its amount is positive, and this month's automatic recharges plus that amount stay within the monthly limit. `UseCredits` succeeds on a short balance exactly when this holds. |
| Billing.BillingProfile.UseCredits | app/billing/models.py:50-99 | The method covers every branch of `use_credits`. It fails on a non-positive amount. When the balance is short, it fails if auto-recharge is off or zero, and fails if the monthly limit would be exceeded, in each case with nothing changed. Otherwise it makes exactly one auto-recharge, then increases usage by the amount. It returns the new balance. The charge goes to the given session, else the latest session in the 30-minute window, else a new session with that cost and zero tokens. Nothing else changes, and the ledger invariant is kept. |
| FiveDollarMigration.AddFiveDollarsCredit | app/billing/migrations/0006_add_five_dollars_credit_to_users.py:4-20 | Every profile gains 500 cents of credit and one `promotion` transaction described as "$5 credit promotion". Usage, sessions and settings are unchanged, each balance rises by 500, and the ledger invariant is kept. |
| FiveDollarMigration.Promote | app/billing/migrations/0006_add_five_dollars_credit_to_users.py:11-20 | One step of the migration adds 500 cents to the profile's credits and appends its promotion row. No other field changes. |
| FiveDollarMigration.ReverseFiveDollarsCredit | app/billing/migrations/0006_add_five_dollars_credit_to_users.py:22-24 | Reversing the migration changes no profile. |
| FlashCardReview.ReviewNeededMembers | app/main/view_flashcard.py:71-84 | A (card, side) pair is in the review-needed list iff the card is in the queryset, that side is due, and it was reviewed before. |
| FlashCardReview.UnreviewedMembers | app/main/view_flashcard.py:71-84 | A (card, side) pair is in the unreviewed list iff the card is in the queryset, that side is due, and it was never reviewed. |
| FlashCardReview.EntriesPerCard | app/main/view_flashcard.py:71-84 | The two lists together hold exactly one entry per due side, so at most two entries per card. |
| FlashCardReview.NextReview | app/main/view_flashcard.py:61-94 | The loop builds both lists. The result comes from the review-needed list when it is non-empty, else from the unreviewed list, at index `pick % length`. The chosen side is due. There is no result iff no side of any card is due. |
| FlashCardReview.ParseStatus | app/main/view_flashcard.py:115 | A submitted status is accepted iff it equals the value of one of the `ReviewStatus` members, and it parses to that member. |
| FlashCardReview.SubmittedSide | app/main/view_flashcard.py:113 | The submitted side, `front` when the request has none. |
| FlashCardReview.ReviewAsWritten | app/main/view_flashcard.py:108-122 | The view as written: a valid status updates the review of the submitted side (default `front`). An invalid or missing status makes a server error, because building the 400 response raises. |
| FlashCardReview.Review | app/main/view_flashcard.py:108-122 | The intended view: a valid status updates the review of the submitted side (default `front`). An invalid or missing status gives a 400 and no update. |
| FlashCardReview.InvalidStatusRaises | app/main/view_flashcard.py:112-119 | For the status "great", the view as written gives a server error where the intended view gives a 400. |
| Tutors.Matching | app/main/middleware.py:15 | The matching tutors are exactly the tutors with that `url_path`. |
| Tutors.LookupTutor | app/main/middleware.py:14-17 | `objects.get(url_path=…)` finds no tutor iff no tutor has that path. When it finds one tutor, that tutor has the path and no other tutor does. |
| TutorMiddleware.SelectTutor | app/main/middleware.py:10-24 | When the URL names a path, the request gets the unique tutor with that path, or none if there is no such tutor. The lookup fails exactly when two or more rows match, including rows with equal contents. When the URL names no path or an empty one, the request gets the only tutor if there is exactly one, else none. |
| TutorMiddleware.Call | app/main/middleware.py:8-27 | The response is the downstream handler's response for the request carrying the selected tutor. |
| TutorPrompts.Whitelist | app/main/views/tutor_views.py:18 | A configuration without a `prompt-override-whitelist` entry has an empty whitelist. When the entry holds a list, the whitelist is that list. A non-empty whitelist is always the list stored under that entry. |
| TutorPrompts.KeyAllowed | app/main/views/tutor_views.py:50-51 | The submitted key is present and is one of the whitelisted paths. |
| TutorPrompts.SaveOverride | app/main/views/tutor_views.py:54-71 | The write on one override row: the response is `deleted` iff the value is empty, and then the row is gone. Otherwise the row holds the value, and the response is `created` iff the row did not exist before. Every other row is untouched. |
| TutorPrompts.SaveOverrideTwice | app/main/views/tutor_views.py:54-71 | Writing the same row twice with the same value leaves the table as the first write left it. The second write reports `deleted` for an empty value and `updated` otherwise. |
| TutorPrompts.UpdatePromptOverride | app/main/views/tutor_views.py:43-71 | An unknown tutor or duplicate tutors leave the table unchanged. A key outside the whitelist is refused with the table unchanged. A blank value after stripping deletes the override. Otherwise the stripped value is stored and the response is `created` iff no override existed. Overrides of other users, tutors and keys are untouched. |
| TutorPrompts.SaveTwiceIsStable | app/main/views/tutor_views.py:55-71 | Saving the same value twice leaves the same table as saving it once. The second save reports `updated` after a save, and otherwise repeats the first response. |
| TutorPrompts.OverridesFor | app/main/views/tutor_views.py:19-22 | The override dictionary has exactly the current user's keys for that tutor path, with their stored values. |
| TutorPrompts.Walk | app/main/views/tutor_views.py:27-29 | Following the path segments down the configuration. A missing key gives `{}`, and a value with no `get` ends the walk with an error. |
| TutorPrompts.WalkConcat | app/main/views/tutor_views.py:27-29 | Walking a path in two parts gives the same as walking it in one go. |
| TutorPrompts.WalkEmpty | app/main/views/tutor_views.py:29 | Walking onward from the `{}` default always ends at `{}`. |
| TutorPrompts.WalkPastMissing | app/main/views/tutor_views.py:29 | Once a segment is missing from a mapping, the walk ends at `{}` whatever follows. |
| TutorPrompts.IsScalar | app/main/views/tutor_views.py:30 | A string, integer, float or boolean value, as `isinstance(value, (str, int, float, bool))` accepts. |
| TutorPrompts.DefaultsOf | app/main/views/tutor_views.py:24-31 | Extracting defaults fails only on a non-text whitelist entry or a walk through a non-mapping value. |
| TutorPrompts.DefaultsSound | app/main/views/tutor_views.py:26-31 | Every default found is a whitelisted path whose walk reached a string, number or boolean value, and that value is the default. |
| TutorPrompts.DefaultsComplete | app/main/views/tutor_views.py:26-31 | Every whitelisted path whose walk reaches a scalar has a default. |
| TutorPrompts.MissingSegmentOmitted | app/main/views/tutor_views.py:29-31 | A path with a missing segment lands on `{}`, which is not a scalar, so that path has no default. |
| TutorPrompts.DefaultsFailIff | app/main/views/tutor_views.py:26-29 | Extraction fails iff some whitelist entry is not text or its walk reaches a value with no `get`. |
| TutorPrompts.DefaultsFailureStops | app/main/views/tutor_views.py:26-29 | Once a prefix of the whitelist fails, the whole whitelist fails with the same error. |
| TutorPrompts.WalkPath | app/main/views/tutor_views.py:27-29 | The inner loop follows the path segment by segment, using `{}` for a missing key. It ends exactly where `Walk` ends, including the failure on a value with no `get`. |
| TutorPrompts.ExtractDefaults | app/main/views/tutor_views.py:24-31 | The outer loop computes exactly `DefaultsOf`: it returns the first error, or every default of the whitelist. |
| TutorPrompts.TutorPromptsPage | app/main/views/tutor_views.py:13-39 | An unknown tutor or duplicate tutors give an error page. Otherwise the page holds the tutor, its whitelist, the user's overrides, and the defaults, or the error raised while extracting them. |
| UserViews.IsAdmin | app/main/views/user_views.py:11-13 | A visitor is an admin iff they are signed in and staff. |
| UserViews.PendingInvitation | app/main/views/user_views.py:28 | The result is an invitation whose email matches case-insensitively and that has not been accepted. It is none iff no such invitation exists. |
| UserViews.UserWithEmail | app/main/views/user_views.py:32 | Some user's email equals the given address case-insensitively. |
| UserViews.FindInvitation | app/main/views/user_views.py:70 | The result is an index holding that invitation id, and it is none iff no invitation has that id. |
| UserViews.DisableUnlessStaff | app/main/views/user_views.py:76-80 | Only the non-staff user with that id is deactivated. Every other field and every other user is unchanged. |
| UserViews.RemoveAtRemovesId | app/main/views/user_views.py:84 | Deleting the invitation at an index removes exactly that id and keeps ids distinct. |
| UserViews.Accounts.InviteUser | app/main/views/user_views.py:15-52 | Non-staff visitors are redirected to login with nothing changed. A GET or an invalid form changes nothing. A pending invitation for the email is returned and not duplicated. An existing user's email gets no invitation. Otherwise one new invitation is appended. The method never creates a second pending invitation for an email. |
| UserViews.Accounts.DeleteInvitation | app/main/views/user_views.py:66-87 | Non-staff visitors are redirected to login. An unknown id gives not-found. A GET changes nothing. A POST disables the accepting non-staff user when the invitation was accepted, then deletes exactly that invitation. |
| AccountAdapter.MergedLoginForm.Clean | app/config/account_adapter.py:18-26 | The form gets the error "Please enter both email and password." iff login or password is missing or blank. The cleaned data is returned unchanged. |
| AccountAdapter.IsOpenForSignup | app/config/account_adapter.py:156-163 | Sign-up is open iff the request is a POST with a non-empty email that has a pending invitation, matched case-insensitively. |
| AccountAdapter.GetClientIp | app/config/account_adapter.py:177-189 | No request gives `127.0.0.1`. A non-empty `X-Forwarded-For` gives its text before the first comma. Otherwise the result is `REMOTE_ADDR`, or none. |
| AccountAdapter.BaseUsername | app/config/account_adapter.py:199 | The base username is the part of the email before the first `@` (empty for an empty email), a prefix without `@`. |
| AccountAdapter.PopulatedUsername | app/config/account_adapter.py:191-207 | A non-empty username is kept. Otherwise the result is the email's base name. When the base is already taken, the result is `base_` followed by six more characters, so it differs from the base. |
| AccountAdapter.UnsavedUser.PopulateUsername | app/config/account_adapter.py:191-207 | The user's username becomes `PopulatedUsername` of the old username. |

## Left out

- Billing.BillingProfile.Balance: it is the definition `total_credits - total_usage` and has no contract of its own. Its behaviour is stated through `AddCredits` and `UseCredits`.
- `Session.duration` returns floating-point minutes and is not modelled.
- Database transactions, `save()` calls and the order of writes are not modelled. Each method is one atomic state change.
- Decimal amounts below one cent and the `max_digits=10` overflow are not modelled. Amounts are unbounded cents.
- Billing.BillingProfile.UseCredits: one `now` is used for the whole call. Sessions with equal `updated_at` are resolved by their order in the sessions list, whereas the database order is unspecified.
- `FlashCard.update_review`, `FlashCard.is_due_for_review` and the FlashCard model are not part of this model. Due-ness is the `isDue` parameter.
- FlashCardReview.NextReview: `get_queryset` filtering, template rendering, `show_both` and permissions are not modelled. The chosen card is returned instead of HTML.
- FlashCardReview.ParseStatus: the `ReviewStatus` values are taken as `forgot`, `hard` and `easy`. The enum's definition is not part of this model. The front end posts `forgot` at app/main/js/controllers/flashcard_controller.js:225.
- `get_object`'s 404 for an unknown card is not modelled in `Review`.
- UserViews.Accounts.InviteUser: `InvitationForm` validation is reduced to an optional email. Messages, the invite URL and rendering are not modelled.
- `Invitation.is_accepted` is not part of this model. It is taken to mean that `accepted_at` is set. `Invitation.accept()` is not modelled.
- `list_invitations` only renders and is not modelled.
- UserViews.PendingInvitation: `__iexact` is modelled with ASCII case folding only. The same holds for `AccountAdapter.IsOpenForSignup` and the user-email check.
- TutorPrompts.UpdatePromptOverride: the override table is a map with one value per key. `update_or_create` would raise on duplicate rows, and the model cannot have any.
- TutorPrompts.UpdatePromptOverride: a missing `key` is refused even when the whitelist contains a YAML null.
- TutorPrompts.Whitelist: a whitelist value that is not a list is read as empty. In the source, a null, number or boolean whitelist makes both views raise `TypeError`. A string whitelist makes the page iterate over its characters, and makes the update view test the key as a substring. A mapping whitelist makes both views use its keys.
- `Tutor.get_config` YAML loading is not modelled. The configuration is a given value tree.
- Django URL resolution in the middleware is not modelled. The `url_path` keyword is a parameter.
- The rest of the login and sign-up flow in app/config/account_adapter.py (`save_user`, `pre_login`, the login view) and app/config/views.py are not modelled. They depend on allauth internals that are not part of this model.
- Token usage recording, payment intents, Stripe webhooks and billing settings views are not modelled. They are outside this core.
- JavaScript controllers, AI helpers, other views, forms, signals, admin, the `sync_tutors` command and the tests are not modelled.

- `@login_required` on `tutor_prompts` and `update_prompt_override`, and `@require_http_methods(["POST"])` on `update_prompt_override`, are not modelled. Anonymous visitors are redirected to login and other methods get 405. The model takes a signed-in user and a POST.
- Billing.BillingProfile.AddCredits: the transaction type is one of the five declared choices. `add_credits` stores any string, because `choices` is not enforced when a row is created.

## Findings

| source | as written | input that shows it | evidently intended | confidence | as-written member | corrected member |
|---|---|---|---|---|---|---|
| app/main/view_flashcard.py:112-119 | The local `status` holds the request's text and shadows the imported status-code module. Building the 400 response reads `status.HTTP_400_BAD_REQUEST` on a string, which raises and gives a server error. | POST with status `great`, or with no status | A 400 response "Invalid status …" and no update | high, not executed | FlashCardReview.ReviewAsWritten (shown by FlashCardReview.InvalidStatusRaises) | FlashCardReview.Review |
