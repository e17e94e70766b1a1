# Portfolio accounts and projects — a Dafny model

This project models the account lifecycle and the project helpers of a Symfony
portfolio site, as pure functions over immutable records:

- **Email verification.** Six-digit codes, zero-padded from a random draw, are
  stored with a fifteen-minute expiry before the mail goes out. One successful
  verification marks the account verified and clears the code.
- **Cleanup.** One sweep clears the expired codes of unverified accounts. One
  purge deletes unverified accounts older than N days, with a dry-run mode.
  Statistics summarise the store. The daily run chains the sweep and a 7-day
  purge. The weekly run chains the sweep, a 3-day purge and the statistics.
  Both record an exception instead of raising it. A report lists a run's
  deleted accounts and its errors.
- **Registration controller.** `register` has guards for login state, form
  validity, missing fields and a taken email. The code page checks the code
  against the session's email. `resendCode` issues a new code.
- **Profile controller.** The profile edit clears the verified flag when the
  email changes. The password change needs the current password. Account
  deletion removes the user's password-reset requests and the account together,
  or removes neither.
- **Forms.** The constraints of the verification-code, registration and
  profile forms, written as predicates over the bound values. Binding is
  modelled too: text and email fields are trimmed, and a field left empty
  binds to null. Password fields are bound as typed.
- **Projects.** The `Project` entity, with its comma-separated `technologies`
  column. The "recent" and "by technology" queries, read as sort, take and
  filter over a sequence.

## Modelling choices

- **Store.** The user store is a `map<string, User>` keyed by email. The email
  column is unique. `WellFormed` says every account is filed under its own
  email. `AllCodeStatesConsistent` says a pending code always has an expiry.
- **Time.** Timestamps are integers counting seconds. "N days" is
  `N * 86400` seconds.
- **Inputs.** The following become explicit parameters of the functions that
  use them:
  - the clock;
  - the random draw;
  - mail delivery (a `delivered` flag);
  - the password hasher (a function `string -> string`);
  - the current-password check, the CSRF check, the Email format constraint
    and the password form's validity (booleans);
  - whether a flush or commit succeeds;
  - the logged-in account and the session's `verification_email`.
- **Faults.** An exception inside a scheduled run is given by a `Faults`
  record. A step that throws commits nothing.
- **User entity.** The entity's source is not part of this model. Its
  behaviour comes from its unit test. `isVerified` is a `bool`, because the
  queries treat NULL like false. `getRoles` is the stored roles plus
  `ROLE_USER`, without duplicates. A code counts as expired only when `now` is
  strictly past its expiry.
- **PHP details.**
  - `trim` strips space, tab, newline, carriage return, NUL and vertical tab.
  - `empty` on a string means `""` or `"0"`.
  - Form binding strips more: Unicode separators, control characters and
    format characters.
  - The profile name pattern has no `u` flag, so it matches bytes. On UTF-8
    input its class admits ASCII letters, blanks, `-`, `'` and exactly the
    characters U+0080 to U+00FF.
  - `explode` and `implode` on `','` are `Split` and `Join`.
- **Result types.** Each controller action returns an outcome datatype, plus
  the new store and, where one exists, the new session value or mail.

## Model

| member | source | states |
|---|---|---|
| `PhpText.Trim` | src/Controller/RegistrationController.php:38-52 | the result is a middle part `s[i..j]` of the input, with only trim characters before and after it; neither end of the result is a trim character; it is empty exactly when every character is a trim character |
| `PhpText.TrimBy` | src/Form/RegistrationFormType.php:23-60 | stripping a list of characters keeps a middle part of the input, with only listed characters around it and none at its ends; nothing is left exactly when every character is listed |
| `PhpText.TrimByUnique` | src/Form/RegistrationFormType.php:23-60 | stripped characters around a value whose ends are kept are removed, and the value comes back whole |
| `PhpText.TrimByIdempotent` | src/Controller/RegistrationController.php:38-52 | trimming an already trimmed string changes nothing |
| `PhpText.NatToString` | src/Service/EmailVerificationService.php:32 | the decimal form of a number is non-empty, all digits, and has no leading zero unless it is "0" |
| `PhpText.ParseNatToString` | src/Service/EmailVerificationService.php:32 | parsing the decimal form of n gives n back |
| `PhpText.PadLeft` | src/Service/EmailVerificationService.php:32 | `str_pad` to the left: the result is as long as the width or the input, whichever is longer, ends with the input and starts with pad characters only |
| `PhpText.ParseLeadingZeros` | src/Service/EmailVerificationService.php:32 | leading zeros do not change the parsed value |
| `PhpText.Split` | src/Entity/Project.php:133 | `explode` gives one more piece than there are separators, and no piece contains the separator |
| `PhpText.JoinSplit` | src/Entity/Project.php:131-140 | joining the pieces of a string with the separator gives the string back |
| `PhpText.SplitJoin` | src/Entity/Project.php:131-140 | splitting the join of a non-empty list of separator-free pieces gives the list back |
| `PhpText.ContainsIff` | src/Repository/ProjectRepository.php:55-56 | the substring test holds exactly when the needle occurs at some position of the haystack |
| `UserEntity.NewUser` | tests/Entity/UserTest.php:17-23 | a new user has no id, is unverified, has roles exactly [ROLE_USER] and no code |
| `UserEntity.GetRoles` | tests/Entity/UserTest.php:107-114 | the roles always contain ROLE_USER, hold no duplicates, and are exactly the stored roles plus ROLE_USER |
| `UserEntity.GetRolesKeepsStoredRoles` | tests/Entity/UserTest.php:99-105 | stored roles that already hold ROLE_USER once are returned unchanged |
| `UserEntity.RolesExamples` | tests/Entity/UserTest.php:99-114 | ['ROLE_USER', 'ROLE_ADMIN'] reads back unchanged; ['ROLE_ADMIN'] reads back with ROLE_USER added |
| `UserEntity.Dedup` | tests/Entity/UserTest.php:99-114 | removing repeats leaves no duplicates and keeps exactly the same members |
| `UserEntity.DedupKeepsFirstOccurrenceOrder` | tests/Entity/UserTest.php:99-114 | like `array_unique`, the kept roles appear in the order of their first occurrence in the input |
| `UserEntity.FullNameExamples` | tests/Entity/UserTest.php:34-61 | the test's cases: "John Doe", "John", "Doe" and "" |
| `UserEntity.FullNameJoinsSetNames` | tests/Entity/UserTest.php:34-61 | the full name is the names that are set, joined with one space |
| `UserEntity.SetEmail` | tests/Entity/UserTest.php:25-32 | the email and the identifier read back the value set; no other field changes |
| `UserEntity.IdentifierFindsAccount` | tests/Entity/UserTest.php:25-32 | in a store that files every account under its email, the identifier of an account finds that same account |
| `UserEntity.ExpiryExamples` | tests/Entity/UserTest.php:147-162 | a null expiry is never expired, a past one is, a future one is not |
| `UserEntity.SetVerificationCode` | tests/Entity/UserTest.php:63-73 | the code reads back the value set; no other field changes |
| `UserEntity.SetVerificationCodeExpiresAt` | tests/Entity/UserTest.php:63-73 | the expiry reads back the value set; no other field changes |
| `UserEntity.SetIsVerified` | tests/Entity/UserTest.php:75-81 | the flag reads back the value set; no other field changes |
| `UserEntity.SetCreatedAt` | tests/Entity/UserTest.php:83-89 | the creation date reads back the value set; no other field changes |
| `UserEntity.SetLastLoginAt` | tests/Entity/UserTest.php:91-97 | the last login reads back the value set; no other field changes |
| `UserEntity.SetRoles` | tests/Entity/UserTest.php:99-105 | the stored roles are the ones set; no other field changes |
| `UserEntity.SetPassword` | tests/Entity/UserTest.php:116-122 | the password reads back the value set; no other field changes |
| `EmailVerification.GenerateVerificationCode` | src/Service/EmailVerificationService.php:30-33 | a code is six characters, all decimal digits, and parses back to the draw |
| `EmailVerification.DistinctDrawsGiveDistinctCodes` | src/Service/EmailVerificationService.php:32 | two draws give the same code exactly when they are equal |
| `EmailVerification.IssueCode` | src/Service/EmailVerificationService.php:37-45 | the account gets the code and an expiry 15 minutes after now; nothing else changes |
| `EmailVerification.SendEmailConfirmation` | src/Service/EmailVerificationService.php:35-61 | the code and its expiry are stored on that account only, whether or not the mail goes out; a mail exists exactly when delivery succeeds, addressed to the account with that code |
| `EmailVerification.MailFailureKeepsCode` | src/Service/EmailVerificationService.php:43-60 | a failed and a successful delivery leave the same store |
| `EmailVerification.MarkVerified` | src/Service/EmailVerificationService.php:81-84 | the account is verified with no code and no expiry; its profile is unchanged |
| `EmailVerification.VerifyUserEmailWithCode` | src/Service/EmailVerificationService.php:63-88 | succeeds exactly when an account has the email, its code is that exact string and has not expired; a failure changes nothing; a success verifies the account and clears both code fields, leaving every other account alone |
| `EmailVerification.ResendVerificationCode` | src/Service/EmailVerificationService.php:90-94 | a fresh code with a new expiry replaces the pending one; nothing else changes |
| `EmailVerification.VerifiesAtMostOnce` | src/Service/EmailVerificationService.php:72-85 | after a success, no code verifies that account again |
| `EmailVerification.SentCodeVerifies` | src/Service/EmailVerificationService.php:35-88 | the code just sent verifies the account at any instant up to its expiry |
| `EmailVerification.ResendRetiresOldCode` | src/Service/EmailVerificationService.php:90-94 | after a resend, any different previous code no longer verifies |
| `EmailVerification.ReplacePreservesInvariants` | src/Service/EmailVerificationService.php:43-46 | replacing an account by a consistent record with the same email keeps both store invariants |
| `EmailVerification.SendPreservesInvariants` | src/Service/EmailVerificationService.php:43-46 | issuing a code keeps both store invariants |
| `EmailVerification.VerifyPreservesInvariants` | src/Service/EmailVerificationService.php:81-85 | verifying keeps both store invariants |
| `UserCleanup.Purged` | src/Service/UserCleanupService.php:32-38 | the purged store holds exactly the accounts that are not selected, each unchanged |
| `UserCleanup.PurgedIsRemoval` | src/Service/UserCleanupService.php:53-72 | the purge is the removal of the selected emails |
| `UserCleanup.CleanupUnverifiedUsers` | src/Service/UserCleanupService.php:20-79 | found_count is the number selected; every selected account is listed once and described; a dry run removes nothing and reports 0 deleted; a real run removes exactly the selection and deleted_count equals found_count |
| `UserCleanup.ClearCode` | src/Service/UserCleanupService.php:113-115 | code and expiry become null; profile and flag are unchanged |
| `UserCleanup.Swept` | src/Service/UserCleanupService.php:91-121 | the swept store has the same accounts; selected accounts lose code and expiry; no flag or profile changes; unselected accounts are unchanged |
| `UserCleanup.SweptIsClearAll` | src/Service/UserCleanupService.php:106-121 | the sweep is the clearing of every selected account |
| `UserCleanup.CleanupExpiredVerificationCodes` | src/Service/UserCleanupService.php:84-131 | cleaned_count equals found_count and the number listed; the listed emails are the selection; the store becomes the swept store |
| `UserCleanup.SweepIsIdempotent` | src/Service/UserCleanupService.php:91-121 | a second sweep at the same instant selects nothing and changes nothing |
| `UserCleanup.PurgeIsIdempotent` | src/Service/UserCleanupService.php:32-38 | after a purge nothing qualifies for the same purge, and a second purge changes nothing |
| `UserCleanup.PurgeSparesVerifiedAndRecent` | src/Service/UserCleanupService.php:33-34 | verified accounts, accounts without a creation date, and accounts created at or after the cutoff survive unchanged |
| `UserCleanup.SweepKeepsPurgeSelection` | src/Service/UserCleanupService.php:106-121 | the sweep never changes which accounts the purge selects |
| `UserCleanup.SweepKeepsWellFormed` | src/Service/UserCleanupService.php:106-121 | the sweep keeps every account filed under its email |
| `UserCleanup.CleanupPreservesInvariants` | src/Service/UserCleanupService.php:53-121 | the sweep and the purge both keep both store invariants |
| `UserCleanup.GetUserStatistics` | src/Service/UserCleanupService.php:136-164 | total is the store size; verified, unverified and expired counts are the sizes of the sets of verified accounts, of unverified ones, and of accounts whose code has expired; verified plus unverified is the total; the rate is verified over total times 100, or 0 for an empty store, and is 100 exactly when nobody is unverified in a non-empty store |
| `UserCleanup.ExpiredCountExceedsSweep` | src/Service/UserCleanupService.php:149-155 | the expired count is the sweep selection plus the verified accounts with an expired code; such a verified account is counted but never swept |
| `UserCleanup.SweepEffectOnStatistics` | src/Service/UserCleanupService.php:91-164 | a sweep keeps the total, verified and unverified counts and the rate; the expired count drops by exactly the number swept |
| `ScheduledCleanup.RunDailyCleanup` | src/Service/ScheduledCleanupService.php:19-55 | sweep, then a real 7-day purge; a failing sweep skips the purge and records its error; a failing purge keeps the sweep; without faults there are no errors and the store is the purged swept store |
| `ScheduledCleanup.RunWeeklyCleanup` | src/Service/ScheduledCleanupService.php:60-96 | sweep, then a real 3-day purge, then statistics of the resulting store; each failure stops the later steps and records one error; without faults the unverified count is the old one minus those purged |
| `ScheduledCleanup.PurgeLeavesUnverified` | src/Service/ScheduledCleanupService.php:74-80 | after sweep and purge, unverified accounts plus purged accounts equal the old unverified count |
| `ScheduledCleanup.AccountLinesListing` | src/Service/ScheduledCleanupService.php:129-131 | one report line per deleted account, listing its email, in order |
| `ScheduledCleanup.ErrorLinesListing` | src/Service/ScheduledCleanupService.php:149-151 | one report line per error, in order |
| `ScheduledCleanup.UsersSectionListing` | src/Service/ScheduledCleanupService.php:121-134 | the users section lists exactly the deleted emails, or nothing when the purge did not run |
| `ScheduledCleanup.ErrorsSectionListing` | src/Service/ScheduledCleanupService.php:147-153 | the errors section lists exactly the run's errors |
| `ScheduledCleanup.ReportListing` | src/Service/ScheduledCleanupService.php:101-158 | across the whole report, the accounts listed are the deleted emails and the errors listed are the run's errors |
| `ScheduledCleanup.GenerateCleanupReport` | src/Service/ScheduledCleanupService.php:101-158 | the last line is the success line, even with errors; the report lists every deleted email and every error, in order |
| `Forms.CodeFieldIsSixDigits` | src/Form/VerificationCodeType.php:42-52 | the code constraints together accept exactly the strings of six decimal digits |
| `Forms.PatternAloneAdmitsTrailingNewline` | src/Form/VerificationCodeType.php:44-51 | the pattern alone admits "123456" plus a newline; the Length constraint rejects it |
| `Forms.BindText` | src/Form/RegistrationFormType.php:23-60 | a bound text field is null exactly when nothing but blanks was submitted; otherwise it is non-empty with no blank at either end |
| `Forms.BindDropsSurroundingBlanks` | src/Form/RegistrationFormType.php:23-60 | blanks typed around a value are dropped and the value is kept whole |
| `Forms.BoundTextIsTrimmed` | src/Controller/RegistrationController.php:38-52 | PHP `trim` finds nothing to remove in a value binding can produce |
| `Forms.BindVerificationForm` | src/Form/VerificationCodeType.php:21-53 | the email and the code are both bound as trimmed text |
| `Forms.BindRegistrationForm` | src/Form/RegistrationFormType.php:23-89 | names and email are bound as trimmed text, so each is null or has no blank at either end; the two password entries and the terms box are kept as typed |
| `Forms.BlankNamesFailTheForm` | src/Form/RegistrationFormType.php:23-48 | a first or last name of blanks binds to null and fails the form; a non-empty password of blanks passes NotBlank |
| `Forms.ZeroNamesPassTheForm` | src/Form/RegistrationFormType.php:23-48 | names "0", also typed as " 0 ", bind to "0" and pass the form; an email typed without surrounding blanks binds to itself |
| `Forms.BindProfileForm` | src/Form/ProfilEditType.php:21-78 | both names and the email are bound as trimmed text |
| `Forms.BlankProfileNamesBindToNull` | src/Form/ProfilEditType.php:21-58 | a name of blanks binds to null, so with a good email the form is valid and clears the name; blanks around a name are dropped before the length check |
| `Forms.NamePatternIsItsClass` | src/Form/ProfilEditType.php:34-37 | the name pattern accepts exactly the strings made of its class of characters |
| `Forms.NameClassExamples` | src/Form/ProfilEditType.php:34-37 | a Latin-1 name such as "Zoë Núñez-O'Brien" matches; "Erdős" does not |
| `Forms.GeneratedCodesPassTheForm` | src/Form/VerificationCodeType.php:33-52 | every generated code satisfies the code constraints, and binds back to itself when typed with blanks around it |
| `Forms.ProfileNamesOptionalButBounded` | src/Form/ProfilEditType.php:21-57 | null or empty names are accepted with a valid email; a name over 50 characters is always rejected |
| `Registration.Among` | src/Controller/RegistrationController.php:36-52 | a field is kept exactly when it is in the list checked and in the chosen set |
| `Registration.AmongOrdered` | src/Controller/RegistrationController.php:36-52 | the kept fields come out in the order they are checked |
| `Registration.MissingFields` | src/Controller/RegistrationController.php:36-52 | a field is reported exactly when its trimmed value is `empty`, in the order prénom, nom, email, mot de passe |
| `Registration.ZeroNameIsMissing` | src/Controller/RegistrationController.php:38-40 | a first name " 0 " is reported missing |
| `Registration.MissingAfterBinding` | src/Controller/RegistrationController.php:36-52 | on a bound form that passed its constraints, a name or email is reported missing exactly when it is "0", and the password exactly when its trimmed value is `empty` |
| `Registration.NewAccount` | src/Controller/RegistrationController.php:71-86 | the new account has the form's names and email, the hashed password, roles [ROLE_USER], a creation date, and no verification |
| `Registration.CreateAccount` | src/Controller/RegistrationController.php:88-105 | exactly one account is added, unverified, with ROLE_USER and a stored code; other accounts are unchanged; the session gets the email only when the mail goes out |
| `Registration.Register` | src/Controller/RegistrationController.php:18-111 | a logged-in user, an invalid form, a missing field or a taken email each give their own outcome and leave store and session unchanged with no mail; success is account creation |
| `Registration.RegisterSucceedsIff` | src/Controller/RegistrationController.php:26-69 | an account is created exactly when nobody is logged in, the form is submitted and valid, no field is missing and the email is new |
| `Registration.CleanFormHasNoMissingField` | src/Controller/RegistrationController.php:36-58 | a bound valid form with no "0" text field and a password that is not blank once trimmed has no missing field, and `register` never sends it back for one |
| `Registration.BlankPasswordIsMissing` | src/Controller/RegistrationController.php:36-58 | a password of blanks is reported missing even though 6 to 4096 of them pass NotBlank and Length, so a valid form with such a password is sent back |
| `Registration.NoSecondAccount` | src/Controller/RegistrationController.php:61-69 | registering an email that already has an account leaves the store unchanged |
| `Registration.RegisterPreservesInvariants` | src/Controller/RegistrationController.php:88-94 | registration keeps both store invariants |
| `Registration.VerifyCode` | src/Controller/RegistrationController.php:113-151 | without a session email the session has expired; the code is accepted exactly when the form is valid and the session email verifies with it; only acceptance changes the store, and it clears the session email |
| `Registration.VerifyIgnoresTypedEmail` | src/Controller/RegistrationController.php:132-136 | two submissions that differ only in the typed email have the same effect |
| `Registration.ResendCode` | src/Controller/RegistrationController.php:153-177 | a new code is issued exactly when the session email belongs to an unverified account; otherwise nothing changes and no mail is sent |
| `Profile.Bind` | src/Controller/ProfilController.php:51-52 | the bound account takes the form's names and email; every other field is kept |
| `Profile.Edit` | src/Controller/ProfilController.php:38-84 | the store changes exactly when the form is valid and the flush succeeds; the account moves to its new email and its reset requests follow it; the flag is kept only if the email is unchanged; other accounts and requests are unchanged |
| `Profile.EditKeepsAccountCount` | src/Controller/ProfilController.php:54-66 | an edit never changes the number of accounts |
| `Profile.EmailChangeNeedsVerification` | src/Controller/ProfilController.php:55-63 | after a stored edit the account is verified exactly when its email is unchanged and it was verified before |
| `Profile.CommittedNamesMeetTheForm` | src/Controller/ProfilController.php:51-54 | a stored edit leaves names that meet the length and pattern constraints and a non-empty email of at most 180 characters |
| `Profile.EditPreservesInvariants` | src/Controller/ProfilController.php:54-66 | an edit keeps both store invariants and leaves every reset request attached to an existing account |
| `Profile.DeleteAfterEmailChange` | src/Controller/ProfilController.php:38-165 | deleting an account after it changed its email removes exactly the reset requests it had before the change |
| `Profile.EmailChangeLeavesNoUsableCode` | src/Controller/ProfilController.php:59-74 | an account without a pending code that changes its email is left unverified, and no code verifies it |
| `Profile.EditAndReverify` | src/Controller/ProfilController.php:68-70 | the edit followed by issuing a code to a changed email: same outcome and accounts as the edit, and the changed account holds a fresh code and expiry |
| `Profile.ReverifiedEmailCanVerify` | src/Controller/ProfilController.php:68-70 | after the corrected edit, the changed email can be verified with the mailed code until it expires |
| `Profile.ChangePassword` | src/Controller/ProfilController.php:86-125 | a wrong current password gives its own outcome; the password becomes the hash of the new one exactly when the form is valid, the current password is right and the flush succeeds; nothing else changes |
| `Profile.ChangePasswordPreservesInvariants` | src/Controller/ProfilController.php:104-112 | a password change keeps both store invariants |
| `Profile.RequestsOf` | src/Controller/ProfilController.php:153-154 | the requests found are exactly those of the account |
| `Profile.RequestsNotOf` | src/Controller/ProfilController.php:153-158 | the requests kept are exactly those of other accounts |
| `Profile.RequestsPartition` | src/Controller/ProfilController.php:153-158 | the removed and the kept requests together make up all requests, counted with repetition |
| `Profile.Repoint` | src/Controller/ProfilController.php:54-66 | the requests of the moved account name its new email; every other request, and every id, is unchanged |
| `Profile.DeleteAccount` | src/Controller/ProfilController.php:127-194 | a bad CSRF token or a failed commit removes nothing; a commit removes the account and exactly its reset requests, keeps every other account and request, and logs the user out |
| `Profile.DeletePreservesInvariants` | src/Controller/ProfilController.php:148-165 | deletion keeps both store invariants and leaves no reset request pointing at a missing account |
| `ProjectEntity.NewProject` | src/Entity/Project.php:44-47 | a new project has no id, title, description or technologies, no images, and its creation date set |
| `ProjectEntity.GetTechnologiesArray` | src/Entity/Project.php:131-134 | a null or falsy column gives []; otherwise there is one entry more than there are commas; no entry contains a comma |
| `ProjectEntity.SetTechnologiesFromArray` | src/Entity/Project.php:136-140 | the column becomes the entries joined by commas; nothing else changes |
| `ProjectEntity.TechnologiesJoinRoundTrip` | src/Entity/Project.php:131-140 | joining the list read from a truthy column gives the column back |
| `ProjectEntity.TechnologiesListRoundTrip` | src/Entity/Project.php:131-140 | a list without commas whose join is truthy reads back unchanged |
| `ProjectEntity.FalsyTechnologyLists` | src/Entity/Project.php:131-140 | [] reads back as []; [""] and ["0"] also read back as [] |
| `ProjectEntity.SetTitle` | src/Entity/Project.php:59-63 | sets the title only |
| `ProjectEntity.SetSmallDescription` | src/Entity/Project.php:70-74 | sets the short description only |
| `ProjectEntity.SetDescription` | src/Entity/Project.php:81-85 | sets the description only |
| `ProjectEntity.SetBannerImage` | src/Entity/Project.php:92-96 | sets the banner image only |
| `ProjectEntity.SetImages` | src/Entity/Project.php:103-107 | sets the images only |
| `ProjectEntity.SetLink` | src/Entity/Project.php:114-118 | sets the link only |
| `ProjectEntity.SetTechnologies` | src/Entity/Project.php:125-129 | sets the technologies column only |
| `ProjectEntity.SetMadeBy` | src/Entity/Project.php:147-151 | sets the author only |
| `ProjectEntity.SetCreatedAt` | src/Entity/Project.php:158-162 | sets the creation date only |
| `ProjectRepository.Insert` | src/Repository/ProjectRepository.php:41 | inserting into a newest-first list keeps it newest first and adds exactly that project |
| `ProjectRepository.SortByNewest` | src/Repository/ProjectRepository.php:41 | the same projects, counted with repetition, newest first |
| `ProjectRepository.FindRecentProjects` | src/Repository/ProjectRepository.php:38-46 | at most `limit` projects, fewer only when there are fewer, newest first, all taken from the table |
| `ProjectRepository.OutsidePrefixIsNoNewer` | src/Repository/ProjectRepository.php:41-42 | in a newest-first list, a project outside the first n is no newer than the n-th |
| `ProjectRepository.LeftOutAreNoNewer` | src/Repository/ProjectRepository.php:41-42 | no project left out of the recent list is newer than the last one returned |
| `ProjectRepository.RecentReturnsAllWhenFew` | src/Repository/ProjectRepository.php:38-46 | with no more projects than the limit, every project is returned |
| `ProjectRepository.WithTechnology` | src/Repository/ProjectRepository.php:54-56 | keeps exactly the projects whose non-null technologies contain the argument, as often as they occur |
| `ProjectRepository.FindByTechnology` | src/Repository/ProjectRepository.php:52-61 | exactly the matching projects, as often as they occur, newest first |
| `ProjectRepository.FindsExactlyTheMatches` | src/Repository/ProjectRepository.php:52-56 | a project is found exactly when it is in the table and the argument occurs somewhere in its technologies |
| `ProjectRepository.EmptyTechnologyFindsAllNonNull` | src/Repository/ProjectRepository.php:55-56 | an empty argument finds every project whose technologies are not null |

## Left out

- Mail, templates, flash messages, logging and HTTP redirects are left out. A sent mail appears only as a `Mail` value.
- Doctrine is left out. Its queries become filters over the store, and a flush or commit becomes a boolean outcome.
- A transaction is all-or-nothing by assumption.
- The `User` entity source is not part of this model. Its behaviour comes from its unit test.
- `__serialize` and `eraseCredentials` from that test are left out, because they are serialization details.
- Password hashing, CSRF validation, sessions and access control are inputs.
- Access control is reduced to "is there a logged-in account". The `index` page only renders, so it is left out.
- The `ChangePasswordType` form and the `ResetPasswordRequest` entity are not part of this model. The password form's validity is a boolean. A reset request keeps only its id and its account, named by the email the account is filed under.
- The Symfony `Email` constraint is a boolean input.
- Form binding trims the Unicode separators, control and format characters. The model lists the format characters of the Basic Multilingual Plane that are commonly met (soft hyphen, the U+200B to U+200F and U+2060 to U+2064 ranges, the byte-order mark), not every one.
- `UserCleanup.GetUserStatistics`: the rate is an exact real percentage, not PHP's float rounded to two decimals.
- Date formatting in user infos and reports is left out. `ReportLine` records the fields a line shows, not its text.
- The durations in reports are left out as well.
- `random_int` becomes a draw in [0, 999999] passed in. `new DateTimeImmutable()` becomes `now`.
- `"-N days"` becomes `N * 86400` seconds, with no calendar or daylight-saving effects.
- One `now` is shared by the steps of a scheduled run. The clock does not advance between steps.
- `ScheduledCleanup.RunDailyCleanup` and `ScheduledCleanup.RunWeeklyCleanup` report an exception only by its message. The file and line are left out.
- The deleted-account name in the farewell message (`getFullName() ?: 'Utilisateur'`) is left out, because it only feeds a flash message.
- `ProjectRepository.FindRecentProjects`: the limit is a natural number. The source accepts a PHP int, and a negative limit is not modelled.
- Equal creation dates appear in one fixed order, although SQL leaves their order open.
- `ProjectRepository.FindByTechnology`: the argument is taken to contain no `%` or `_` wildcard. The comparison is exact character equality, with no database collation or case folding.
- `findFeaturedProjects` is left out, because it filters on a `featured` field that the `Project` entity does not have.
- The console commands, the project controller's uploads, fixtures, migrations and the front end are left out. They are I/O or do not touch the modelled state.
- Identifier assignment by the database is left out. A new account or project has no id.

## Findings

| source | as written | input that shows it | evidently intended | confidence | as-written member | corrected member |
|---|---|---|---|---|---|---|
| src/Controller/ProfilController.php:59-74 | an email change clears the verified flag. The success message promises a verification email to the new address, but no code is issued and nothing is sent. | a verified account with no pending code changes its email. It is then unverified, and no code can ever verify it. | issue a code to the new address, as registration does | medium, not executed | `Profile.EmailChangeLeavesNoUsableCode` | `Profile.EditAndReverify` (with `Profile.ReverifiedEmailCanVerify`) |
