# Baby-sleep support app: verified model of its client-side core

The application helps parents with a baby's sleep. It has three parts:

- a Flask backend with an AI chat and a community forum;
- a React web client (`frontend/`);
- a React Native mobile client (`baby-sleep-native`, `baby-sleep-native-fixed`).

This project models, in Dafny, the parts of the code that make exact decisions. The model covers:

- **Validators and sanitisers.**
  - The backend rules for passwords, e-mail addresses, usernames, names and input length (`security_utils.py`).
  - The web client's copy of those rules, proved to accept exactly what the backend accepts on portable ASCII input.
  - The mobile client's variant, which collects every failing rule, scores password strength and sanitises free text.
- **Chat stream framing** (`chatService.ts`). The buffered line splitter over a simplified subset of the server-sent events format (WHATWG HTML Living Standard, section 9.2). It keeps `data: ` lines, accumulates chunks until `done`, and maps the non-streaming result.
- **Client state.**
  - The mobile session store over a general store and a secure store.
  - The mobile auth service's pre-validation, payload and error mapping.
  - The web app's session check, logout, message list and profile merge.
  - The baby-profile list.
  - The notification dropdowns of both clients.
  - The login page.
  - The forum page.
  - The header subtitle and avatar.
  - The sleep-progress pages of both clients: factor toggle, rings, data windows, day change, and loading/error precedence.
- **Rendering and path helpers.**
  - Chat-message paragraph and list formatting in both clients.
  - The icon tables with emoji resolution and fallbacks, and the web `svgProps` defaults.
  - The forum service's file URLs, query strings and headers.

Pure code is modelled as functions and lemmas. A React component is modelled as a class: its `useState` variables are fields, and its handlers are methods. Network replies, the clock, random numbers and stored values are taken as parameters; the web send reads the clock twice, and each reading is its own parameter. The mobile sleep-progress screen reuses the toggle, ring and window functions of the web page, because its source computes them with the same expressions (baby-sleep-native-fixed/app/sleep-progress.tsx:292-319).

## Model

| member | source | states |
|---|---|---|
| SecurityUtils.StrippedAnchored | backend/security_utils.py:78-79 | After strip() the text does not end in a newline, so re.match with `$` accepts exactly when the pattern matches the whole text |
| SecurityUtils.ValidatePasswordStrength | backend/security_utils.py:27-61 | The result is (True, None) or (False, non-empty message); missing or non-string input gives 'Password is required' |
| SecurityUtils.Failures | backend/security_utils.py:35-59 | The messages of the failing password rules, in rule order, at most one per rule |
| SecurityUtils.FailuresFrom | backend/security_utils.py:35-59 | The failing rules' messages from a given rule on, at most one per remaining rule |
| SecurityUtils.FailuresStep | backend/security_utils.py:35-59 | The failures from rule k are rule k's message (if it fails) followed by the failures after it |
| SecurityUtils.FailuresFromIn | backend/security_utils.py:35-59 | A message reported from a later rule on is reported by the whole rule list |
| SecurityUtils.FailureMessagesFrom | backend/security_utils.py:35-59 | Every reported message is the message of one of the rules tried |
| SecurityUtils.PasswordFirstFailure | backend/security_utils.py:32-61 | A password is accepted exactly when no rule fails, and otherwise the error is the first failing rule's message, in the order length < 8, > 128, upper, lower, digit, special, common |
| SecurityUtils.LowerKeepsSpecial | backend/security_utils.py:54-58 | Lower-casing leaves each special character in place, so password.lower() still has the special character |
| SecurityUtils.CommonHaveNoSpecial | backend/security_utils.py:13-16 | No COMMON_PASSWORDS entry contains a special character |
| SecurityUtils.SpecialIsNotAlphanumeric | backend/security_utils.py:54 | No special character is an ASCII letter or digit |
| SecurityUtils.CommonAreAlphanumeric | backend/security_utils.py:13-16 | Every COMMON_PASSWORDS entry consists of ASCII letters and digits only |
| SecurityUtils.TooCommonUnreachable | backend/security_utils.py:57-59 | The 'too common' message is never returned: a password reaching that check has a special character, and no listed password does |
| SecurityUtils.PasswordAcceptedIff | backend/security_utils.py:35-61 | A password is accepted exactly when it has 8 to 128 characters and at least one upper-case letter, lower-case letter, digit and special character |
| SecurityUtils.MatchesEmailIff | backend/security_utils.py:78 | The computable check (first '@', last '.') holds exactly when the text splits as local@domain.tld with the pattern's character classes and a TLD of at least two letters |
| SecurityUtils.ValidateEmail | backend/security_utils.py:64-82 | The result is (True, None) or (False, non-empty message); missing or non-string input gives 'Email is required' |
| SecurityUtils.EmailAcceptedIff | backend/security_utils.py:69-82 | An e-mail is accepted exactly when it is non-empty and its stripped form has at most 255 characters and the local@domain.tld form |
| SecurityUtils.ValidateUsername | backend/security_utils.py:85-105 | The result is (True, None) or (False, non-empty message); missing or non-string input gives 'Username is required' |
| SecurityUtils.UsernameAcceptedIff | backend/security_utils.py:90-105 | A username is accepted exactly when its stripped form has 3 to 30 characters over [A-Za-z0-9_-]; 30 is accepted because the test is `> 30` |
| SecurityUtils.ValidateName | backend/security_utils.py:108-128 | The result is (True, None) or (False, non-empty message); missing or non-string input gives '<field> is required' |
| SecurityUtils.BlankNameCannotBeEmpty | backend/security_utils.py:113-119 | Whitespace-only input gives '<field> cannot be empty', not 'is required' |
| SecurityUtils.NameAcceptedIff | backend/security_utils.py:113-128 | A name is accepted exactly when its stripped form has 1 to 50 characters over letters, whitespace, apostrophe and hyphen |
| SecurityUtils.ValidateInputLength | backend/security_utils.py:131-145 | The result is well formed, and valid exactly when the value is None or its string form has at most max_length characters |
| Text.JsLength | frontend/src/utils/validation.js:14 | JavaScript's `length` counts UTF-16 units: at least the number of characters, at most twice it |
| Text.JsLengthIsCount | frontend/src/utils/validation.js:14 | The UTF-16 length equals the number of characters exactly when no character lies outside the Basic Multilingual Plane |
| Text.JsLengthCons | frontend/src/components/LoginPage.jsx:151 | A leading character adds two UTF-16 units when it lies outside the Basic Multilingual Plane and one otherwise |
| Text.PortableLength | frontend/src/utils/validation.js:61-112 | On ASCII text the UTF-16 length is the number of characters |
| WebValidation.ValidatePassword | frontend/src/utils/validation.js:9-49 | The result is {isValid: true, error: null} or invalid with a non-empty message; a missing, empty or non-string argument gives 'Password is required' |
| WebValidation.ValidateEmail | frontend/src/utils/validation.js:54-71 | The result is well formed; a missing, empty or non-string argument gives 'Email is required' |
| WebValidation.ValidateUsername | frontend/src/utils/validation.js:76-96 | The result is well formed; a missing, empty or non-string argument gives 'Username is required' |
| WebValidation.ValidateName | frontend/src/utils/validation.js:101-121 | The result is well formed; a missing, empty or non-string argument gives '<field> is required' |
| WebValidation.PasswordAgrees | frontend/src/utils/validation.js:9-49 | On a missing or non-string argument, and on text without astral characters (where JavaScript's UTF-16 length equals Python's character count), the web password check gives the backend's verdict and message |
| WebValidation.PasswordDivergesOnAstral | frontend/src/utils/validation.js:14-20 | With an emoji in it, a seven-character password is eight UTF-16 units long: the web check accepts it and the backend rejects it as too short |
| WebValidation.WebAcceptsWhen | frontend/src/utils/validation.js:9-49 | A password of 8 to 128 UTF-16 units with an upper-case letter, a lower-case letter, a digit and a special character passes the web check |
| WebValidation.WebTooCommonUnreachable | frontend/src/utils/validation.js:42-46 | The web client's 'too common' message is unreachable too |
| WebValidation.PortableStripAgrees | frontend/src/utils/validation.js:59 | On ASCII text without \x1c-\x1f, JavaScript's trim() and Python's strip() agree, and the result stays in that alphabet |
| WebValidation.EmailAgrees | frontend/src/utils/validation.js:54-71 | On ASCII text without \x1c-\x1f the web e-mail check gives the backend's verdict and message |
| WebValidation.WebEmailVerdict | frontend/src/utils/validation.js:54-71 | The web e-mail check is the shared verdict over its trimmed text: required, too long, malformed, valid, in that order |
| WebValidation.BackendEmailVerdict | backend/security_utils.py:64-82 | The backend e-mail check is the same shared verdict over its stripped text |
| WebValidation.UsernameAgrees | frontend/src/utils/validation.js:76-96 | On ASCII text without \x1c-\x1f the web username check gives the backend's verdict and message |
| WebValidation.WebUsernameVerdict | frontend/src/utils/validation.js:76-96 | The web username check is the shared verdict over its trimmed text: required, short, long, characters, valid |
| WebValidation.BackendUsernameVerdict | backend/security_utils.py:85-105 | The backend username check is the same shared verdict over its stripped text |
| WebValidation.NameAgrees | frontend/src/utils/validation.js:101-121 | On ASCII text without \x1c-\x1f the web name check gives the backend's verdict and message |
| WebValidation.WebNameVerdict | frontend/src/utils/validation.js:101-121 | The web name check is the shared verdict over its trimmed text: required, empty, long, characters, valid |
| WebValidation.BackendNameVerdict | backend/security_utils.py:108-128 | The backend name check is the same shared verdict over its stripped text |
| WebValidation.UsernameDivergesOnSeparator | frontend/src/utils/validation.js:81 | '\x1cabc' is accepted by the backend (strip() removes \x1c) and rejected by the web client (trim() keeps it), so agreement needs the alphabet restriction |
| WebValidation.BackendStripsSeparator | backend/security_utils.py:93-105 | The backend accepts '\x1cabc' |
| WebValidation.WebKeepsSeparator | frontend/src/utils/validation.js:81-93 | The web client rejects '\x1cabc' |
| NativeValidation.Truncate | baby-sleep-native-fixed/src/utils/validation.ts:17-19 | substring(0, maxLength) only when longer: the result is the prefix of length min(len, maxLength), clamped at 0 |
| NativeValidation.Sanitized | baby-sleep-native-fixed/src/utils/validation.ts:8-25 | Missing input gives ''; the result has at most maxLength characters and no control character of the removed class |
| NativeValidation.SanitizeString | baby-sleep-native-fixed/src/utils/validation.ts:8-25 | The step-by-step trim, cap and control-character removal computes the sanitiser's specification |
| NativeValidation.SanitizedIsSubsequence | baby-sleep-native-fixed/src/utils/validation.ts:14-22 | The sanitised text is a subsequence of the capped trim and of the input |
| NativeValidation.TruncatedTrimIsSubsequence | baby-sleep-native-fixed/src/utils/validation.ts:14-19 | The capped trim is a subsequence of the input |
| NativeValidation.SanitizedRemovesOnlyControl | baby-sleep-native-fixed/src/utils/validation.ts:22 | When the capped trim has no control character, sanitising returns it unchanged |
| NativeValidation.SanitizeNotIdempotent | baby-sleep-native-fixed/src/utils/validation.ts:14-22 | Sanitising is not idempotent: '\x01 a' becomes ' a', which sanitises to 'a', because control characters are removed after trimming |
| NativeValidation.SanitizeFirstPass | baby-sleep-native-fixed/src/utils/validation.ts:14-22 | The first pass over '\x01 a' gives ' a' |
| NativeValidation.SanitizeSecondPass | baby-sleep-native-fixed/src/utils/validation.ts:14-22 | The second pass over ' a' gives 'a' |
| NativeValidation.SanitizeMessage | baby-sleep-native-fixed/src/utils/validation.ts:121-123 | The sanitiser with the 5000-character cap; the result has at most 5000 characters |
| NativeValidation.SanitizePostContent | baby-sleep-native-fixed/src/utils/validation.ts:128-130 | The sanitiser with the 10000-character cap; the result has at most 10000 characters |
| NativeValidation.SanitizeUsername | baby-sleep-native-fixed/src/utils/validation.ts:30-37 | The result has only [A-Za-z0-9_-] characters; missing input gives '' |
| NativeValidation.SanitizeUsernameIsSubsequence | baby-sleep-native-fixed/src/utils/validation.ts:36 | The sanitised username is a subsequence of the trimmed input |
| NativeValidation.SanitizeUsernameIdempotent | baby-sleep-native-fixed/src/utils/validation.ts:30-37 | Sanitising a sanitised username changes nothing |
| NativeValidation.LooseEmailMatchesIff | baby-sleep-native-fixed/src/utils/validation.ts:47 | The computable test holds exactly when the text splits as x@y.z with x, y, z non-empty and free of whitespace and '@' |
| NativeValidation.LooseEmailFound | baby-sleep-native-fixed/src/utils/validation.ts:47 | The first '@' and a '.' after it give a split of the pattern |
| NativeValidation.LooseEmailSplitMatches | baby-sleep-native-fixed/src/utils/validation.ts:47 | Any split of the pattern is found by the computable test |
| NativeValidation.IsValidEmail | baby-sleep-native-fixed/src/utils/validation.ts:42-49 | Missing, empty or non-string input is not a valid e-mail |
| NativeValidation.StrictEmailIsLoose | baby-sleep-native-fixed/src/utils/validation.ts:47 | Every address of the backend's local@domain.tld form also passes the mobile client's looser pattern |
| NativeValidation.PasswordErrors | baby-sleep-native-fixed/src/utils/validation.ts:61-100 | Every error in the list is a non-empty message |
| NativeValidation.PasswordFailuresNonEmpty | baby-sleep-native-fixed/src/utils/validation.ts:69-100 | Every message of the mobile password rules is non-empty |
| NativeValidation.ValidatePassword | baby-sleep-native-fixed/src/utils/validation.ts:61-116 | Missing input gives ['Password is required'] and 'weak'; otherwise the errors are every failing rule's message in order, valid exactly when there is none, and strength is weak when invalid, strong from 12 UTF-16 units, else medium |
| NativeValidation.CollectErrors | baby-sleep-native-fixed/src/utils/validation.ts:62-100 | The successive pushes build exactly the list of failing rules' messages, in rule order |
| NativeValidation.RuleMeaning | baby-sleep-native-fixed/src/utils/validation.ts:69-100 | There are six rules: length >= 8, upper, lower, digit, special, and no common password as a substring of the lower-cased text, with their messages |
| NativeValidation.PushStep | baby-sleep-native-fixed/src/utils/validation.ts:69-100 | One conditional push keeps the loop invariant 'errors so far + failures still to come = all failures' |
| NativeValidation.SubstringCommonStricter | baby-sleep-native-fixed/src/utils/validation.ts:96-100 | 'MyPassword1!' is rejected as too common by the mobile client (substring test) and accepted by the backend (exact test) |
| NativeValidation.NativeFindsCommon | baby-sleep-native-fixed/src/utils/validation.ts:97-98 | 'MyPassword1!' contains 'password' once lower-cased, so the mobile client reports it as too common |
| NativeValidation.BackendAccepts | backend/security_utils.py:32-61 | The backend accepts 'MyPassword1!' |
| NativeValidation.LongPasswordsDiverge | baby-sleep-native-fixed/src/utils/validation.ts:69-74 | The mobile client has no upper length limit: a password over 128 characters passing every mobile rule is still rejected by the backend |
| NativeValidation.ValidateUsername | baby-sleep-native-fixed/src/utils/validation.ts:135-156 | The result is {isValid: true} or invalid with a non-empty message |
| NativeValidation.ValidateName | baby-sleep-native-fixed/src/utils/validation.ts:161-182 | The result is {isValid: true} or invalid with a non-empty message |
| NativeValidation.NativeAgreesWithBackend | baby-sleep-native-fixed/src/utils/validation.ts:135-182 | On ASCII text without \x1c-\x1f the mobile username and name checks give the backend's verdicts and messages |
| ChatService.ConsumeStream | baby-sleep-native-fixed/src/services/chatService.ts:74-149 | Reading the chunks one at a time, keeping the unfinished line in a buffer, gives exactly the outcome the framing function defines on the whole stream: the result at the first `done` line, or what was gathered when the reader ends or fails |
| ChatService.HandleLines | baby-sleep-native-fixed/src/services/chatService.ts:96-142 | The per-line loop computes the fold of the line handler over the completed lines and stops at the first line that finishes the reply |
| ChatService.RunLinesSnoc | baby-sleep-native-fixed/src/services/chatService.ts:96-142 | Handling one more line extends the fold by one handler step |
| ChatService.RunLinesStopped | baby-sleep-native-fixed/src/services/chatService.ts:122-135 | Once a line has finished the reply, the lines after it change nothing |
| ChatService.RunLinesDoneThen | baby-sleep-native-fixed/src/services/chatService.ts:122-135 | A finished fold ignores any lines appended to it |
| ChatService.ReadStep | baby-sleep-native-fixed/src/services/chatService.ts:90-94 | Splitting buffer + new chunk yields the same completed lines and buffer as splitting the whole text read so far |
| ChatService.RunLinesAppend | baby-sleep-native-fixed/src/services/chatService.ts:82-143 | Handling lines batch by batch is the same as handling them all at once |
| ChatService.RunLinesAfterDone | baby-sleep-native-fixed/src/services/chatService.ts:130-134 | After the return at `done` no further line is handled |
| ChatService.ConcatSnoc | baby-sleep-native-fixed/src/services/chatService.ts:91 | The buffer grows by exactly the decoded chunk |
| ChatService.CompletedLinesStep | baby-sleep-native-fixed/src/services/chatService.ts:93-94 | Each read only adds completed lines: earlier ones are a prefix of later ones |
| ChatService.CompletedLinesGrow | baby-sleep-native-fixed/src/services/chatService.ts:93-94 | The lines completed after n reads are a prefix of the lines of the whole stream |
| ChatService.EarlyReturn | baby-sleep-native-fixed/src/services/chatService.ts:122-135 | When a `done` line arrives within the first n+1 chunks, the reply is the one built at that line, whatever follows |
| ChatService.FramingLossless | baby-sleep-native-fixed/src/services/chatService.ts:93-94 | The completed lines, each with its '\n', followed by the kept buffer, give back the text, and no piece contains '\n' |
| ChatService.SkippedLinesChangeNothing | baby-sleep-native-fixed/src/services/chatService.ts:97-141 | Blank lines, lines without the "data: " prefix and empty payloads leave the state unchanged |
| ChatService.FailedLineDoesNotAbort | baby-sleep-native-fixed/src/services/chatService.ts:104-138 | A payload that does not parse or carries an error is logged and skipped: the stream goes on as if the line were absent |
| ChatService.AppendCall | baby-sleep-native-fixed/src/services/chatService.ts:115-119 | Appending a non-empty chunk keeps every onChunk call's fullResponse equal to the concatenation of the chunks so far |
| ChatService.OnPayloadConsistent | baby-sleep-native-fixed/src/services/chatService.ts:106-135 | Handling one payload keeps fullResponse equal to the concatenation of the reported chunks |
| ChatService.OnLineStep | baby-sleep-native-fixed/src/services/chatService.ts:96-142 | One line adds exactly its chunk text to fullResponse and finishes the reply exactly when it is a parsed `done` payload without error |
| ChatService.RunLinesCons | baby-sleep-native-fixed/src/services/chatService.ts:96 | The loop handles the first line, then the rest |
| ChatService.StreamedCons | baby-sleep-native-fixed/src/services/chatService.ts:115-116 | The streamed text of lines not yet finished is the first line's text followed by the rest's |
| ChatService.FullResponseIsStreamed | baby-sleep-native-fixed/src/services/chatService.ts:96-142 | After any lines, fullResponse is the text streamed by those lines up to the first `done`, and the onChunk calls stay consistent with it |
| ChatService.StreamResponseIsStreamed | baby-sleep-native-fixed/src/services/chatService.ts:74-149 | The returned response is the text streamed by the completed lines, and every onChunk call reports the running total, whether the stream finishes or the read fails |
| ChatService.FinalFragmentIgnored | baby-sleep-native-fixed/src/services/chatService.ts:94-149 | A last fragment without '\n' stays in the buffer and is never handled |
| ChatService.ConversationIdSource | baby-sleep-native-fixed/src/services/chatService.ts:77-126 | The conversation id returned by a stream is the caller's or a truthy id sent by the server |
| ChatService.OnLineConversationId | baby-sleep-native-fixed/src/services/chatService.ts:124-126 | One line keeps the conversation id or replaces it with a truthy one |
| ChatService.ServerError | baby-sleep-native-fixed/src/services/chatService.ts:62-65 | The thrown message is the server's error when non-empty, otherwise 'Server error: <status>'; never empty |
| ChatService.NonStreaming | baby-sleep-native-fixed/src/services/chatService.ts:170-198 | The message is sanitised; an HTTP error raises the server error; a reply returns its response and title and the server's conversation id, or the caller's when the server sends none (`??`, so 0 is kept) |
| ChatService.ZeroIdTreatedDifferently | baby-sleep-native-fixed/src/services/chatService.ts:124-195 | A conversation id of 0 is dropped by the streamed path (truthiness) but kept by the non-streamed path (`??`) |
| ChatService.FallbackError | baby-sleep-native-fixed/src/services/chatService.ts:156-162 | The fallback's message when it has one, otherwise 'Failed to send message'; never empty |
| ChatService.SendMessage | baby-sleep-native-fixed/src/services/chatService.ts:38-165 | The sanitised message is sent first; a finished stream is returned with its onChunk calls; a failed request, an HTTP error or a failed read falls back once to the non-streamed path with the already sanitised message (sanitised again there); without a reader the original message goes to the non-streamed path and, when that throws, once more through the catch; every raised error has a non-empty message |
| Storage.Name | baby-sleep-native/src/utils/storage.ts:8-17 | Every STORAGE_KEYS name is non-empty |
| Storage.NamesDistinct | baby-sleep-native/src/utils/storage.ts:8-17 | Different keys are stored under different names, so no write to one key can touch another |
| Storage.Lookup | baby-sleep-native/src/utils/storage.ts:21-56 | A read yields the stored value exactly when the key is present and the read does not fail; a failure yields null, never an exception |
| Storage.SetThenGetUserData | baby-sleep-native/src/utils/storage.ts:109-160 | After setUserData with all writes succeeding, getUserData returns each non-empty username, id and first name given, and the picture and bio ('' for null or empty) whenever they were given |
| Storage.SetUserDataKeepsUnwritten | baby-sleep-native/src/utils/storage.ts:141-160 | setUserData never touches the token or forum_author_name, and keeps the stored username when none is given |
| Storage.SessionStore.constructor | baby-sleep-native/src/utils/storage.ts:19-85 | The two stores start with the given contents |
| Storage.SessionStore.GetItem | baby-sleep-native/src/utils/storage.ts:21-28 | Reads the general store; null on absence or failure |
| Storage.SessionStore.SetItem | baby-sleep-native/src/utils/storage.ts:31-37 | Writes one key of the general store, or nothing when the write fails; the secure store is untouched, and the token/general separation survives any key but the token |
| Storage.SessionStore.RemoveItem | baby-sleep-native/src/utils/storage.ts:40-46 | Removes one key of the general store, or nothing on failure; the secure store is untouched |
| Storage.SessionStore.GetSecureToken | baby-sleep-native/src/utils/storage.ts:49-56 | Reads the secure store; null on absence or failure |
| Storage.SessionStore.SetSecureToken | baby-sleep-native/src/utils/storage.ts:59-65 | Writes one key of the secure store, or nothing on failure; the general store is untouched |
| Storage.SessionStore.RemoveSecureToken | baby-sleep-native/src/utils/storage.ts:68-74 | Removes one key of the secure store, or nothing on failure |
| Storage.SessionStore.Clear | baby-sleep-native/src/utils/storage.ts:77-84 | Empties the general store (or nothing on failure) and leaves the secure token in place |
| Storage.SessionStore.GetToken | baby-sleep-native/src/utils/storage.ts:89-91 | The session token is read from the secure store |
| Storage.SessionStore.SetToken | baby-sleep-native/src/utils/storage.ts:93-95 | The session token is written only to the secure store; the separation is kept |
| Storage.SessionStore.RemoveToken | baby-sleep-native/src/utils/storage.ts:97-99 | The session token is removed from the secure store only |
| Storage.SessionStore.GetUsername | baby-sleep-native/src/utils/storage.ts:101-103 | The username is read from the general store |
| Storage.SessionStore.SetUsername | baby-sleep-native/src/utils/storage.ts:105-107 | The username is written to the general store only |
| Storage.SessionStore.GetUserData | baby-sleep-native/src/utils/storage.ts:109-131 | Returns the five profile fields of the general store, each null when absent or when its read fails |
| Storage.SessionStore.SetUserData | baby-sleep-native/src/utils/storage.ts:133-163 | Writes username, user_id and first_name only when non-empty, picture and bio whenever present ('' for null or empty), remember_me as 'true'/'false' when present; each failed write is skipped; no other key changes |
| Storage.SessionStore.ClearSession | baby-sleep-native/src/utils/storage.ts:165-176 | Removes the token from the secure store and all seven other keys, forum_author_name included, from the general store, except where a removal fails |
| Storage.ClearedSessionReadsNull | baby-sleep-native/src/utils/storage.ts:109-176 | After a successful clearSession every getUserData field and the token read as null |
| AuthService.SignupCheck | baby-sleep-native-fixed/src/services/authService.ts:46-70 | The pre-request checks stop at the first failure with a non-empty message, in the order first name, last name, e-mail, username (only when not random and supplied), password |
| AuthService.FirstNameFailureMasksRest | baby-sleep-native-fixed/src/services/authService.ts:46-49 | An invalid first name decides the outcome whatever the other fields hold |
| AuthService.EmailFailureMasksRest | baby-sleep-native-fixed/src/services/authService.ts:56-58 | With valid names, an invalid e-mail gives 'Please enter a valid email address' whatever the username and password |
| AuthService.RandomModeIgnoresUsername | baby-sleep-native-fixed/src/services/authService.ts:60-65 | In random-username mode the username is never checked |
| AuthService.EmptyUsernameSkipsFormat | baby-sleep-native-fixed/src/services/authService.ts:60 | An empty username is not checked, exactly as in random mode |
| AuthService.PasswordMessageListsEveryFailure | baby-sleep-native-fixed/src/services/authService.ts:67-70 | When the password is the first failure, the thrown message contains every failing password rule's message (the list joined with '. ') |
| AuthService.SentPasswordSatisfiesRules | baby-sleep-native-fixed/src/services/authService.ts:56-70 | A signup that passes the checks has a password with no failing rule and a valid e-mail |
| AuthService.BuildSignupPayload | baby-sleep-native-fixed/src/services/authService.ts:76-94 | The password and random flag are sent as given, remember_me is true only when given as true, baby_profiles only when non-empty, sleep_goals only when present |
| AuthService.SignupEmailNormalised | baby-sleep-native-fixed/src/services/authService.ts:79 | The e-mail is sent trimmed and lower-cased |
| AuthService.SignupNamesTrimmed | baby-sleep-native-fixed/src/services/authService.ts:77-81 | First name, last name and username are sent trimmed |
| AuthService.SignupErrorMessage | baby-sleep-native-fixed/src/services/authService.ts:102-118 | A failed signup shows a non-empty message: the timeout message, the server's error, the generic signup failure, the connectivity message or the unexpected-error message |
| AuthService.TimeoutWins | baby-sleep-native-fixed/src/services/authService.ts:106-150 | A timeout code gives the timeout message for signup and login, whatever else the error carries |
| AuthService.SignupShowsServerError | baby-sleep-native-fixed/src/services/authService.ts:109-113 | A server response with an error text shows that text |
| AuthService.Signup | baby-sleep-native-fixed/src/services/authService.ts:44-119 | Nothing is sent when a check fails and its message is thrown; otherwise the normalised payload is sent and the reply's data is returned or its error mapped to the signup message |
| AuthService.LoginCheck | baby-sleep-native-fixed/src/services/authService.ts:124-129 | Login proceeds exactly when the trimmed username and the password are non-empty |
| AuthService.BuildLoginPayload | baby-sleep-native-fixed/src/services/authService.ts:134-138 | The username is sent trimmed, the password as given, remember_me true only when given as true |
| AuthService.LoginErrorMessage | baby-sleep-native-fixed/src/services/authService.ts:144-164 | A failed login shows a non-empty message from the fixed set or the server's error |
| AuthService.Login401HidesServerText | baby-sleep-native-fixed/src/services/authService.ts:151-156 | Every 401 shows exactly 'Invalid username or password', whatever the server said |
| AuthService.LoginShowsOtherServerErrors | baby-sleep-native-fixed/src/services/authService.ts:157-158 | Another server status with an error text shows that text |
| AuthService.Login | baby-sleep-native-fixed/src/services/authService.ts:122-165 | Nothing is sent when the check fails; otherwise the trimmed payload is sent and the reply's data is returned or its error mapped to the login message |
| AuthService.CheckSession | baby-sleep-native-fixed/src/services/authService.ts:168-183 | A 401 becomes {authenticated: false}, every other failure is rethrown unchanged, and a reply is returned as is |
| AuthService.Logout | baby-sleep-native-fixed/src/services/authService.ts:186-199 | A logout request is posted with the token exactly when a non-empty token is read, and the stored session is cleared whatever happens to that request |
| App.WebCheckSession | frontend/src/api/authService.js:82-91 | The web checkSession never throws: a reply is returned as is and every failure, 401 or network, becomes {authenticated: false} |
| App.Decide | frontend/src/App.jsx:36-86 | No stored token and username: no user and no check. An authenticated session: the server's user. Stored credentials are cleared exactly when remember_me is not 'true' and the session is unauthenticated or the failure is a 401; every other outcome keeps the stored username logged in |
| App.WebCatchUnreachable | frontend/src/App.jsx:64-83 | With the web checkSession the catch branch of checkAuth is never taken |
| App.WebNetworkErrorLogsOut | frontend/src/App.jsx:50-58 | As written, a network failure of the session check logs out a user without remember_me, although the comment at line 51 promises it would not |
| App.CorrectedKeepsUserOnNetworkError | frontend/src/App.jsx:64-81 | With a checkSession that rethrows non-401 failures, a network failure keeps the user logged in, with or without remember_me |
| App.CorrectedClearsOnlyInvalidSessions | frontend/src/App.jsx:50-83 | With the rethrowing checkSession, credentials are cleared exactly when remember_me is off and the server says the session is invalid or answers 401 |
| App.AppState.constructor | frontend/src/App.jsx:14-29 | The app starts with the stored entries, no user, no messages, no conversation, no error, not loading |
| App.AppState.CheckAuth | frontend/src/App.jsx:33-91 | Applies the start-up decision: the user it sets, and the removal of token, username, user_id and remember_me only in the clearing case; nothing else changes |
| App.LogoutThenNoSession | frontend/src/App.jsx:123-134 | After logout the next start-up finds no credentials and makes no session check |
| App.ClearedThenNoSession | frontend/src/App.jsx:40-58 | After credentials are cleared the next start-up finds none |
| App.AppState.Logout | frontend/src/App.jsx:123-134 | Posts the logout only with a stored non-empty token, then removes session_token, username, user_id, remember_me and forum_author_name and sets the user to null |
| App.Merge | frontend/src/App.jsx:113-121 | Every key the update carries replaces the user's, even when its value is null or undefined; every key it leaves out keeps the previous value, or is undefined when there was no user; this holds for username, user_id, profile_picture and bio |
| App.ProfileSavedReplaces | frontend/src/components/Profile.jsx:99-103 | After a profile save the user keeps name and id and takes the server's picture and bio; a null picture from the server clears the old one |
| App.MergeIdempotent | frontend/src/App.jsx:119 | Applying the same update twice equals applying it once |
| App.MergeEmptyKeeps | frontend/src/App.jsx:119 | An update that carries no key leaves the user as it was |
| App.AppState.ProfileUpdate | frontend/src/App.jsx:113-121 | The user becomes the merge, and the stored username is rewritten only when the update carries a non-empty username different from the current one |
| App.ShowReply | frontend/src/App.jsx:216-286 | The assistant placeholder's content becomes the reply; every other message, and the length, stay as they were |
| App.Placeholders | frontend/src/App.jsx:193-210 | The send appends the user's message with the first clock reading as id and an empty assistant message with the second reading plus one |
| App.PlaceholderIdsDistinct | frontend/src/App.jsx:195-203 | When the clock does not run backwards between the two readings, the two new messages get different ids |
| App.FailedSendRestoresList | frontend/src/App.jsx:200-210 | When the ids of both clock readings are fresh, removing the two new messages after a failure gives back exactly the list before the send |
| App.FailedSendKeepsOthers | frontend/src/App.jsx:296 | The failure filter keeps every other message, with its multiplicity |
| App.RepliedSendAppendsExchange | frontend/src/App.jsx:193-286 | When both ids are fresh and differ, a successful send appends the user's message and the assistant's reply, in that order, to the earlier list |
| App.ClashingIdsOverwriteUserMessage | frontend/src/App.jsx:195-226 | If the clock went back by exactly one between the readings, the two ids coincide and the reply overwrites the user's own message |
| App.AppState.SendMessage | frontend/src/App.jsx:179-306 | A blank message changes nothing; otherwise the user message (id: first clock reading) and an empty placeholder (id: second reading plus one) are appended; then a failure removes exactly those two ids and sets the error, and a reply fills the placeholder and sets the conversation id if there was none; loading ends either way |
| App.AppState.Settle | frontend/src/App.jsx:288-305 | The end of a send: failure filters out the two ids and records the error, a reply fills the placeholder; loading ends |
| BabyProfile.SaveRequest | baby-sleep-native-fixed/app/baby-profile.tsx:69-97 | No request for a blank name; any other name gives the payload |
| BabyProfile.PayloadBirthDateUntrimmed | baby-sleep-native-fixed/app/baby-profile.tsx:83-93 | birth_date is sent as typed, untrimmed, and as null exactly when empty |
| BabyProfile.PayloadTextFieldsTrimmed | baby-sleep-native-fixed/app/baby-profile.tsx:82-96 | The name is sent trimmed; sleep issues, schedule and notes are sent trimmed and non-empty, or as null exactly when blank |
| BabyProfile.Submit | baby-sleep-native-fixed/app/baby-profile.tsx:298-303 | The form calls onSave exactly when the trimmed name is non-empty, and then with the form itself, so onSave never sees a blank name |
| BabyProfile.Screen.constructor | baby-sleep-native-fixed/app/baby-profile.tsx:34-46 | An empty list, no profile being edited, an empty new-baby form, loading, not saving, no messages |
| BabyProfile.Screen.Load | baby-sleep-native-fixed/app/baby-profile.tsx:52-66 | An array result becomes the list, any other value an empty list, a failure keeps the list and sets its message or the default; loading ends either way |
| BabyProfile.Screen.Save | baby-sleep-native-fixed/app/baby-profile.tsx:68-120 | A blank name sets 'Baby name is required', sends nothing and changes nothing else; otherwise the trimmed payload is sent and an update replaces the entries with that id and ends editing, a create appends the result and empties the form, a failure only sets the error; saving ends either way |
| BabyProfile.Screen.ApplySaveReply | baby-sleep-native-fixed/app/baby-profile.tsx:78-119 | How a settled save request changes the list, the form and the messages |
| BabyProfile.Screen.Delete | baby-sleep-native-fixed/app/baby-profile.tsx:122-147 | Nothing happens unless confirmed; a successful delete removes every entry with that id and keeps the rest in order; a failure keeps the list and sets its message |
| BabyProfile.DeleteLeavesNoneWithId | baby-sleep-native-fixed/app/baby-profile.tsx:136 | After a delete no entry with that id remains |
| BabyProfile.DeleteKeepsOthers | baby-sleep-native-fixed/app/baby-profile.tsx:136 | A delete keeps every other profile, with its multiplicity |
| BabyProfile.UpdateThenDelete | baby-sleep-native-fixed/app/baby-profile.tsx:88-136 | Deleting an id after updating it gives the same list as deleting it straight away |
| BabyProfile.UpdateUnknownIdKeeps | baby-sleep-native-fixed/app/baby-profile.tsx:88 | Updating an id that is not in the list leaves the list unchanged |
| BabyProfile.DeleteIdempotent | baby-sleep-native-fixed/app/baby-profile.tsx:136 | Deleting the same id twice equals deleting it once |
| Notifications.BadgeFor | baby-sleep-native-fixed/src/components/Notifications.tsx:211-213 | No badge for a count of 0 or less, '99+' exactly when the count exceeds 99, otherwise the count itself (the web badge at frontend/src/components/Notifications.jsx:88-90 is the same) |
| Notifications.FormatTime | baby-sleep-native-fixed/src/components/Notifications.tsx:86-99 | 'just now' exactly when less than a minute has passed (so for every future timestamp); otherwise the whole minutes (< 60), hours (< 24) or days (< 7) elapsed, each bracketing the elapsed time; a date from 7 days on. The web formatTime (frontend/src/components/Notifications.jsx:65-78) has the same buckets |
| Notifications.FormatTimeOrdered | baby-sleep-native-fixed/src/components/Notifications.tsx:86-99 | As time passes a label only moves forward: never back to 'just now', never back from a date |
| Notifications.PollReplacesEverything | baby-sleep-native-fixed/src/components/Notifications.tsx:44-53 | A poll answer with every field replaces the whole state |
| Notifications.PollDefaultsMissing | baby-sleep-native-fixed/src/components/Notifications.tsx:45-52 | Missing list fields become [] and a missing count 0, so an answer with none of them leaves a count of 0 |
| Notifications.MarkFor | baby-sleep-native-fixed/src/components/Notifications.tsx:161-164 | A post click marks notification_ids=[notification_id] when that id is truthy, otherwise post_ids=[id]; never mark_all |
| Notifications.UnreadTotalSplit | baby-sleep-native-fixed/src/components/Notifications.tsx:175 | The unread total of the senders splits over any partition of them |
| Notifications.RemoveIndex | baby-sleep-native-fixed/src/components/Notifications.tsx:196 | Removing index i drops exactly that entry and keeps the others in order; an index outside the list keeps it |
| Notifications.PostClickCount | baby-sleep-native-fixed/src/components/Notifications.tsx:156-159 | A post click lowers the badge count by the number of entries with that post id |
| Notifications.SenderClickCount | baby-sleep-native-fixed/src/components/Notifications.tsx:172-181 | When the count matched the senders, a sender click leaves it lowered by that sender's unread total |
| Notifications.AnswerKeepsOtherInvites | baby-sleep-native-fixed/src/components/Notifications.tsx:105-108 | Answering an invite removes every entry with its id and keeps every other invite |
| Notifications.FriendRequestClickCount | baby-sleep-native-fixed/src/components/Notifications.tsx:192-197 | A friend-request click lowers the count by exactly one |
| Notifications.Panel.constructor | baby-sleep-native-fixed/src/components/Notifications.tsx:26-35 | The native bell starts with empty lists, 0 messages, the dropdown closed and the current time as last check |
| Notifications.Panel.Poll | baby-sleep-native-fixed/src/components/Notifications.tsx:37-58 | Signed out: nothing changes. Otherwise a non-empty answer replaces all six fields (missing ones as []/0) and advances the last check; an empty answer or an error changes nothing |
| Notifications.Panel.RespondToInvite | baby-sleep-native-fixed/src/components/Notifications.tsx:101-120 | Signed out: nothing. Success removes the invite from channel_invites only, then polls, so the last-check time advances exactly when the poll brings data; accepting navigates to the forum and closes the dropdown; the server's message is alerted when present. Failure only alerts its message or 'Failed to update invite' |
| Notifications.Panel.ApproveInvite | baby-sleep-native-fixed/src/components/Notifications.tsx:122-137 | Like answering an invite, on invite_approvals only and without navigation; the last-check time advances exactly when the follow-up poll brings data |
| Notifications.Panel.ClearAll | baby-sleep-native-fixed/src/components/Notifications.tsx:139-152 | Every list empties and the count becomes 0, the last check advances, and mark_all is requested exactly when signed in |
| Notifications.Panel.PostClick | baby-sleep-native-fixed/src/components/Notifications.tsx:154-168 | Removes that post id from new_posts and nothing else, requests the mark-read payload when signed in, goes to the forum and closes the dropdown |
| Notifications.Panel.MessageClick | baby-sleep-native-fixed/src/components/Notifications.tsx:170-190 | With a sender: that sender is dropped and new_messages becomes the unread total of the rest; without one: new_messages becomes 0 and the senders stay; then the friends tab |
| Notifications.Panel.FriendRequestClick | baby-sleep-native-fixed/src/components/Notifications.tsx:192-200 | Removes exactly the clicked index from new_friend_requests, then the friends tab |
| Notifications.WebCountIgnoresInvites | frontend/src/components/Notifications.jsx:60-63 | The web count of a polled answer is the native count minus the channel invites and invite approvals |
| Notifications.WebPanel.constructor | frontend/src/components/Notifications.jsx:5-11 | The web bell starts with empty lists, 0 messages, the dropdown closed |
| Notifications.WebPanel.Poll | frontend/src/components/Notifications.jsx:18-37 | Signed out: nothing. A non-empty answer replaces the three fields (missing ones as []/0) and advances the last check; otherwise nothing changes |
| Notifications.WebPanel.ClearAll | frontend/src/components/Notifications.jsx:100-107 | Empties the three fields, so the count is 0, and advances the last check, with no server call |
| ChatMessage.Seek | baby-sleep-native-fixed/src/components/ChatMessage.tsx:32-38 | The scan that a pattern's character class performs: it stops at the first stopping character from i, or at the end, and passes only non-stopping characters |
| ChatMessage.SeekFence | baby-sleep-native-fixed/src/components/ChatMessage.tsx:32 | A found closing fence is three backticks at or after the given index |
| ChatMessage.FenceAt | baby-sleep-native-fixed/src/components/ChatMessage.tsx:32 | A fenced-block match starts and ends with three backticks, is at least six characters long and keeps nothing (lazy: the first closing fence) |
| ChatMessage.Wrapped | baby-sleep-native-fixed/src/components/ChatMessage.tsx:33-38 | A `code`, *x* or _x_ match starts and ends with its delimiter, has a non-empty inside free of the delimiter (and of '\n' for * and _), and keeps exactly the inside |
| ChatMessage.LinkAt | baby-sleep-native-fixed/src/components/ChatMessage.tsx:34 | A [text](url) match lies inside the text |
| ChatMessage.HeadingAt | baby-sleep-native-fixed/src/components/ChatMessage.tsx:35 | A heading-marker match starts a line with '#' and keeps nothing |
| ChatMessage.StrikeAt | baby-sleep-native-fixed/src/components/ChatMessage.tsx:36 | A ~~x~~ match lies inside the text |
| ChatMessage.MatchAt | baby-sleep-native-fixed/src/components/ChatMessage.tsx:32-38 | Every pattern's match at an index lies inside the text and keeps a part of itself |
| ChatMessage.Matches | baby-sleep-native-fixed/src/components/ChatMessage.tsx:32-38 | The match of a pattern at every index of the text |
| ChatMessage.ReplaceFromDeletes | baby-sleep-native-fixed/src/components/ChatMessage.tsx:32-38 | A global replacement only deletes characters: the result is a subsequence of the input |
| ChatMessage.ReplaceAtMatch | baby-sleep-native-fixed/src/components/ChatMessage.tsx:32-38 | At a match, the replacement emits the kept part and resumes after the match |
| ChatMessage.ReplaceFromUntouched | baby-sleep-native-fixed/src/components/ChatMessage.tsx:32-38 | With no match from an index on, the rest of the text is copied unchanged |
| ChatMessage.SanitizeDeletes | baby-sleep-native-fixed/src/components/ChatMessage.tsx:28-39 | sanitizeContent only deletes: its result is a subsequence of the input and no longer |
| ChatMessage.EmphasisUnwraps | baby-sleep-native-fixed/src/components/ChatMessage.tsx:37 | *w* becomes w for a non-empty w without '*' or '\n' |
| ChatMessage.BoldKeepsOneStarPair | baby-sleep-native-fixed/src/components/ChatMessage.tsx:37 | **w** keeps one pair of stars: the single-star pattern matches the inner *w* only |
| ChatMessage.DropNewlines | baby-sleep-native-fixed/src/components/ChatMessage.tsx:46 | A separator run is the leading '\n's dropped before the next paragraph; the rest does not start with '\n' |
| ChatMessage.Paragraphs | baby-sleep-native-fixed/src/components/ChatMessage.tsx:45-46 | split(/\n\n+/) yields at least one piece, the first being a prefix of the text |
| ChatMessage.ParagraphsHaveNoBlankLine | baby-sleep-native-fixed/src/components/ChatMessage.tsx:46 | No paragraph contains two consecutive newlines |
| ChatMessage.ParagraphsKeepText | frontend/src/components/ChatMessage.jsx:15 | Splitting drops only newlines: the paragraphs together hold every other character, in order |
| ChatMessage.ParagraphsSingle | frontend/src/components/ChatMessage.jsx:15 | Text without two consecutive newlines is a single paragraph |
| ChatMessage.DigitRun | baby-sleep-native-fixed/src/components/ChatMessage.tsx:53 | The leading run of digits: all digits, and followed by a non-digit or the end |
| ChatMessage.CleanItem | baby-sleep-native-fixed/src/components/ChatMessage.tsx:62-64 | Stripping one bullet and then one "N. " gives a suffix of the item, leaves a non-list item as it is, and leaves a non-empty item non-empty |
| ChatMessage.CleanItemOneBullet | baby-sleep-native-fixed/src/components/ChatMessage.tsx:63 | Only one bullet is removed: '- - a' becomes '- a' |
| ChatMessage.TrimLines | baby-sleep-native-fixed/src/components/ChatMessage.tsx:54-56 | One trimmed entry per '\n'-separated line, in order |
| ChatMessage.ListItemsNonEmpty | baby-sleep-native-fixed/src/components/ChatMessage.tsx:54-64 | Every rendered list item is non-empty |
| ChatMessage.NativeBlock | baby-sleep-native-fixed/src/components/ChatMessage.tsx:50-85 | A paragraph becomes a list exactly when its trimmed text starts with '-', '*' or '•' plus whitespace, or with digits, '.' and whitespace; the native client has no headings |
| ChatMessage.NativeParagraphs | baby-sleep-native-fixed/src/components/ChatMessage.tsx:45-47 | The kept paragraphs are non-blank |
| ChatMessage.FormatNative | baby-sleep-native-fixed/src/components/ChatMessage.tsx:41-49 | Content that is blank once sanitised renders nothing; otherwise one block per non-blank paragraph |
| ChatMessage.NativeEmptyIffBlank | baby-sleep-native-fixed/src/components/ChatMessage.tsx:42-47 | The native message renders no block exactly when the sanitised content is blank |
| ChatMessage.WebBlock | frontend/src/components/ChatMessage.jsx:17-51 | The list test first; otherwise a heading exactly when the trimmed text is non-empty, shorter than 100 UTF-16 units and has no '.'; otherwise a paragraph |
| ChatMessage.FormatWeb | frontend/src/components/ChatMessage.jsx:11-17 | Empty or absent content gives ''; otherwise exactly one block per piece of the split, none dropped |
| ChatMessage.WebBlankParagraph | frontend/src/components/ChatMessage.jsx:36-51 | A blank paragraph falls through to a paragraph of one empty line |
| ChatMessage.ClientsAgreeOutsideHeadings | baby-sleep-native-fixed/src/components/ChatMessage.tsx:49-85 | The two clients classify lists alike and render every non-heading paragraph alike; a web heading is a native plain paragraph |
| LoginPage.PatternOfParts | frontend/src/components/LoginPage.jsx:51 | Two lower-case words and a digit string joined by '_' match ^[a-z]+_[a-z]+_\d+$ and split back into those three parts |
| LoginPage.PatternParts | frontend/src/components/LoginPage.jsx:51 | A name that matches the pattern is its three '_'-separated parts joined back together |
| LoginPage.AdjectiveShape | frontend/src/components/LoginPage.jsx:35 | Every adjective is a lower-case word of 4 to 8 letters |
| LoginPage.NounShape | frontend/src/components/LoginPage.jsx:36 | Every noun is a lower-case word of 4 to 9 letters |
| LoginPage.GeneratedParts | frontend/src/components/LoginPage.jsx:34-41 | A generated name is adjective_noun_n with the drawn adjective and noun and a decimal n between 0 and 999 |
| LoginPage.GeneratedMatchesPattern | frontend/src/components/LoginPage.jsx:34-51 | Every generated name matches the pattern that keeps random mode on |
| LoginPage.GeneratedShape | frontend/src/components/LoginPage.jsx:34-41 | Every generated name has 11 to 22 characters, all from [a-z0-9_] |
| LoginPage.GeneratedPassesBackend | frontend/src/components/LoginPage.jsx:34-41 | Every generated name passes the backend's validate_username |
| LoginPage.ShouldUseRandom | frontend/src/components/LoginPage.jsx:51 | Random mode is sent exactly when the box is ticked and the username is non-empty and matches the pattern |
| LoginPage.StoreSession | frontend/src/components/LoginPage.jsx:63-71 | After a sign-in the token, username and user id are stored, remember_me is 'true' exactly when the box was ticked and absent otherwise, and no other key changes |
| LoginPage.SettleAuth | frontend/src/components/LoginPage.jsx:63-81 | A response with a non-empty session token signs in and stores the session; any other response or a thrown error stores nothing and sets a non-empty error, the thrown message when it has one |
| LoginPage.RememberedSessionSurvivesCheck | frontend/src/components/LoginPage.jsx:67-68 | A remembered sign-in is never cleared by the next start-up check, whatever it answers |
| LoginPage.UnrememberedSessionCleared | frontend/src/components/LoginPage.jsx:69-70 | A sign-in without remember me is cleared by a start-up check that says the session is invalid |
| LoginPage.ResetPrecheck | frontend/src/components/LoginPage.jsx:146-154 | A confirmation mismatch is reported first, then a password shorter than 6 UTF-16 units; the request goes out exactly when both pass |
| LoginPage.ThreeEmojiPassReset | frontend/src/components/LoginPage.jsx:151 | A password of three emoji is six UTF-16 units long and passes the pre-check |
| LoginPage.Page.constructor | frontend/src/components/LoginPage.jsx:11-31 | Empty fields, boxes unticked, no messages, not loading, with the stored entries |
| LoginPage.Page.ToggleRandom | frontend/src/components/LoginPage.jsx:441-451 | Ticking the box fills in a generated name, unticking empties the username; random mode keeps the pattern invariant |
| LoginPage.Page.Regenerate | frontend/src/components/LoginPage.jsx:479-482 | The regenerate button replaces the username with a new generated name |
| LoginPage.Page.EditUsername | frontend/src/components/LoginPage.jsx:463-471 | Editing sets the username and keeps random mode on only while the new value matches the pattern |
| LoginPage.Page.Settle | frontend/src/components/LoginPage.jsx:63-81 | The end of a sign-in request: the stored entries, the error and the signed-in user follow SettleAuth; loading ends |
| LoginPage.Page.Signup | frontend/src/components/LoginPage.jsx:43-82 | Random mode is sent as ShouldUseRandom (always the box's value while the invariant holds); the outcome is settled with the signup remember-me box |
| LoginPage.Page.Login | frontend/src/components/LoginPage.jsx:84-112 | The outcome is settled with the login remember-me box |
| LoginPage.Page.ResetPassword | frontend/src/components/LoginPage.jsx:141-171 | A failed pre-check sets its message and sends nothing; otherwise the token and new password are sent, success clears the form and closes it, failure sets the error; the message falls back to the default when empty |
| LoginPage.Page.SendReset | frontend/src/components/LoginPage.jsx:156-170 | The token and new password are sent; success shows the server's message or the default, closes the form and clears its three fields; failure shows the error or the default and changes nothing else; loading ends either way |
| LoginPage.Page.ResetForm | frontend/src/components/LoginPage.jsx:173-190 | Every field and message is emptied and every box unticked |
| Forum.NormalizeChannelName | frontend/src/components/Forum.jsx:334 | The field keeps only [a-z0-9-] and never grows |
| Forum.LowerKeepsChannelChars | frontend/src/components/Forum.jsx:334 | Lower-casing leaves a valid channel name unchanged |
| Forum.NormalizeIdempotent | frontend/src/components/Forum.jsx:334 | Normalising twice equals normalising once |
| Forum.NormalizeFixedPoints | frontend/src/components/Forum.jsx:334 | A name is left unchanged exactly when it is already over [a-z0-9-] |
| Forum.NormalizeKeepsOrder | frontend/src/components/Forum.jsx:334 | The normalised name is a subsequence of the lower-cased input |
| Forum.Heads | frontend/src/components/Forum.jsx:256 | The first characters of the words, at most one per word |
| Forum.Initials | frontend/src/components/Forum.jsx:255-257 | At most two characters, none lower-case |
| Forum.InitialsOfOneWord | frontend/src/components/Forum.jsx:256 | A single word gives its upper-cased first letter |
| Forum.InitialsOfTwoWords | frontend/src/components/Forum.jsx:256 | Two words give their upper-cased first letters, in order |
| Forum.InitialsSkipEmptyWord | frontend/src/components/Forum.jsx:256 | An empty word, as from a leading space, contributes nothing |
| Forum.FileOnlyPostIgnored | frontend/src/components/Forum.jsx:78 | With a file and blank text the Post button is enabled, yet nothing is sent |
| Forum.ChannelControls | frontend/src/components/Forum.jsx:427-452 | Owner controls show when the channel has no owner or the owner is the current name; the invite button shows for a private channel whose owner differs; both show only for a private channel without an owner |
| Forum.NameLeTotal | frontend/src/components/Forum.jsx:222-224 | The name order used for sorting is total |
| Forum.NameLeTransitive | frontend/src/components/Forum.jsx:222-224 | The name order is transitive |
| Forum.Insert | frontend/src/components/Forum.jsx:222-224 | Inserting adds exactly one channel |
| Forum.InsertSorted | frontend/src/components/Forum.jsx:222-224 | Inserting into a sorted list keeps it sorted and adds exactly the new channel |
| Forum.SortByNameSorts | frontend/src/components/Forum.jsx:222-224 | Sorting yields a list sorted by name holding the same channels |
| Forum.InsertAtEnd | frontend/src/components/Forum.jsx:222-224 | A channel named after all others goes at the end |
| Forum.SortedHeadLe | frontend/src/components/Forum.jsx:222-224 | In a sorted list the first name precedes every other |
| Forum.SortedUnchanged | frontend/src/components/Forum.jsx:222-224 | Sorting a sorted list changes nothing (the sort is stable) |
| Forum.CreatedChannelInserted | frontend/src/components/Forum.jsx:222-224 | Re-sorting a sorted list with the new channel appended is inserting it in place |
| Forum.CreatedChannelList | frontend/src/components/Forum.jsx:222-225 | The list after a create is sorted and holds the old channels and the new one |
| Forum.Board.constructor | frontend/src/components/Forum.jsx:8-24 | No channels, none selected, no posts, no file, empty forms, with the given author name |
| Forum.Board.EditChannelName | frontend/src/components/Forum.jsx:334 | The field stores the normalised text, so it only ever holds [a-z0-9-] |
| Forum.Board.SelectFile | frontend/src/components/Forum.jsx:167-181 | A file over 10×1024×1024 bytes is refused with an alert and never selected; otherwise it is selected; no file changes nothing |
| Forum.Board.CreatePost | frontend/src/components/Forum.jsx:76-113 | Nothing happens unless text and author name are both non-blank; a failed upload alerts and drops the file; with no channel selected the TypeError is alerted; otherwise the post is sent with the uploaded file, appended at the end on success (text and file cleared), and a failure alerts its message |
| Forum.Board.CreateChannel | frontend/src/components/Forum.jsx:207-241 | A blank name sends nothing; otherwise the name, privacy and current name are sent; a created channel is added, the list re-sorted by name, the channel selected and the form reset; a failure alerts its message |
| Forum.Board.ApplyChannelReply | frontend/src/components/Forum.jsx:220-240 | How the settled create request changes the list, the selection and the form |
| ForumService.FileName | baby-sleep-native-fixed/src/services/forumService.ts:262 | The file name is the text after the last '/', and contains no '/' |
| ForumService.FileUrl | baby-sleep-native-fixed/src/services/forumService.ts:261-264 | The URL is the base followed by /forum/files/ and a name without '/' |
| ForumService.FileNameOfPlainName | baby-sleep-native-fixed/src/services/forumService.ts:262 | A name without '/' is kept as it is |
| ForumService.FileNameDropsDirectory | baby-sleep-native-fixed/src/services/forumService.ts:262 | Paths with the same last segment give the same URL, whatever the directories before it |
| ForumService.TrailingSlashNamesNothing | baby-sleep-native-fixed/src/services/forumService.ts:262 | A path ending in '/' gives an empty file name, so the URL is the bare files directory |
| ForumService.HexDigit | baby-sleep-native-fixed/src/services/forumService.ts:21 | encodeURIComponent's hex digits are unreserved characters |
| ForumService.Utf8 | baby-sleep-native-fixed/src/services/forumService.ts:21 | A character encodes as 1 to 4 bytes |
| ForumService.Percent | baby-sleep-native-fixed/src/services/forumService.ts:21 | Each byte becomes three characters: '%' and two hex digits |
| ForumService.EncodeChar | baby-sleep-native-fixed/src/services/forumService.ts:21 | A character is kept when unreserved, otherwise percent-encoded |
| ForumService.EncodeURIComponent | baby-sleep-native-fixed/src/services/forumService.ts:21 | The encoding never shrinks and uses only unreserved characters and '%' |
| ForumService.EncodeUnreservedUnchanged | baby-sleep-native-fixed/src/services/forumService.ts:21 | A username of unreserved characters is sent unchanged |
| ForumService.ReadPercent | baby-sleep-native-fixed/src/services/forumService.ts:21 | Percent-encoded bytes are read back as the same bytes |
| ForumService.LeadAnnouncesLength | baby-sleep-native-fixed/src/services/forumService.ts:21 | The first byte of a UTF-8 sequence announces the sequence's length |
| ForumService.Utf8RoundTrip | baby-sleep-native-fixed/src/services/forumService.ts:21 | Decoding the UTF-8 bytes of a character gives it back |
| ForumService.DecodeEncodedChar | baby-sleep-native-fixed/src/services/forumService.ts:21 | Decoding an encoded character reads back that character and its whole encoding |
| ForumService.EncodeDecode | baby-sleep-native-fixed/src/services/forumService.ts:21 | Decoding the encoded username gives the username back |
| ForumService.EncodeInjective | baby-sleep-native-fixed/src/services/forumService.ts:21 | Different usernames never encode to the same query value |
| ForumService.UsernameQueryShape | baby-sleep-native-fixed/src/services/forumService.ts:20-44 | The listing URL carries ?username= exactly when the username is non-empty, and its value is URL-safe and decodes to the username |
| ForumService.AuthHeaders | baby-sleep-native-fixed/src/services/forumService.ts:9-15 | Content-Type is always application/json; Authorization: Bearer <token> is added exactly when a non-empty token is stored |
| ForumService.GetPosts | baby-sleep-native-fixed/src/services/forumService.ts:40-56 | Listed posts are returned; a 404 status, or a thrown error whose message contains '404', gives []; every other failure becomes 'Failed to fetch posts' |
| AppHeader.UnescapeNewlines | baby-sleep-native-fixed/src/components/AppHeader.tsx:150 | Every literal backslash-n becomes a line break: the result is no longer than the input and contains no backslash-n |
| AppHeader.UnescapeNoBackslash | baby-sleep-native-fixed/src/components/AppHeader.tsx:150 | Text without a backslash is left unchanged |
| AppHeader.UnescapeFixed | baby-sleep-native-fixed/src/components/AppHeader.tsx:150 | Text without a backslash-n is left unchanged |
| AppHeader.UnescapeIdempotent | baby-sleep-native-fixed/src/components/AppHeader.tsx:150 | Normalising twice equals normalising once |
| AppHeader.UnescapeAfterPlain | baby-sleep-native-fixed/src/components/AppHeader.tsx:150 | A prefix without backslashes passes through and the rest is normalised on its own |
| AppHeader.UnescapeJoin | baby-sleep-native-fixed/src/components/AppHeader.tsx:150 | 'a\\nb' becomes a, a line break and b |
| AppHeader.Find | baby-sleep-native-fixed/src/components/AppHeader.tsx:164-165 | The first occurrence of a separator from a position on, or none |
| AppHeader.TrimEach | baby-sleep-native-fixed/src/components/AppHeader.tsx:159 | Each shown line is trimmed, one for one |
| AppHeader.FirstTwoTrimmed | baby-sleep-native-fixed/src/components/AppHeader.tsx:154-159 | At most two lines are shown |
| AppHeader.ShownLines | baby-sleep-native-fixed/src/components/AppHeader.tsx:153-162 | With a line break, at most two lines are shown |
| AppHeader.ShownLinesTrimmed | baby-sleep-native-fixed/src/components/AppHeader.tsx:154-159 | Every shown line is non-empty and trimmed |
| AppHeader.SplitTwoLines | baby-sleep-native-fixed/src/components/AppHeader.tsx:154 | Two lines joined by '\n' split back into those two |
| AppHeader.SplitThreeLines | baby-sleep-native-fixed/src/components/AppHeader.tsx:154 | Three lines joined by '\n' split back into those three |
| AppHeader.TwoEscapedLines | baby-sleep-native-fixed/src/components/AppHeader.tsx:148-162 | 'a\\nb' with both parts non-blank shows the lines trim(a) and trim(b) |
| AppHeader.ThirdLineDropped | baby-sleep-native-fixed/src/components/AppHeader.tsx:154 | A third non-blank line is not shown |
| AppHeader.BlankLineSkipped | baby-sleep-native-fixed/src/components/AppHeader.tsx:154 | A blank line is skipped, so the next non-blank line is shown second |
| AppHeader.CommaShown | baby-sleep-native-fixed/src/components/AppHeader.tsx:164-170 | Without a line break but with ', ', the shown text is a prefix of the subtitle that stops before the second ', ', or the whole subtitle when there is no second one |
| AppHeader.SubtitleView | baby-sleep-native-fixed/src/components/AppHeader.tsx:144-176 | Nothing is shown for a missing or empty subtitle; lines exactly when the normalised subtitle contains a line break; otherwise a single prefix of it, the whole normalised subtitle when there is no ', ' |
| AppHeader.AvatarLetter | baby-sleep-native-fixed/src/components/AppHeader.tsx:128 | One character, never lower-case: 'R' when the username is missing or empty, otherwise its upper-cased first letter |
| AppHeader.AvatarFor | baby-sleep-native-fixed/src/components/AppHeader.tsx:117-131 | The picture exactly when a non-empty profile picture is stored, otherwise the placeholder letter |
| AppHeader.NewStampNewUri | baby-sleep-native-fixed/src/components/AppHeader.tsx:119-121 | A new timestamp gives a new picture URI, so a changed picture is fetched again |
| AppHeader.Header.constructor | baby-sleep-native-fixed/src/components/AppHeader.tsx:35-45 | No user data yet, and the current time as the image timestamp |
| AppHeader.Header.LoadUserData | baby-sleep-native-fixed/src/components/AppHeader.tsx:58-74 | The stored picture, username and first name replace the header's; the timestamp becomes the current time exactly when the picture changed; a failed read changes nothing |
| SleepProgress.Toggle | frontend/src/components/SleepProgress.jsx:411 | After a chip click the factor is selected exactly when it was not selected before |
| SleepProgress.ToggleKeepsOthers | frontend/src/components/SleepProgress.jsx:411 | Toggling one factor leaves how often every other factor occurs unchanged |
| SleepProgress.ToggleOffRemovesAll | frontend/src/components/SleepProgress.jsx:411 | Deselecting a factor removes every copy of it, and only those |
| SleepProgress.DropCount | frontend/src/components/SleepProgress.jsx:411 | Filtering out one value shortens the list by exactly its number of occurrences |
| SleepProgress.ToggleTwiceRestores | frontend/src/components/SleepProgress.jsx:411 | Clicking an unselected factor twice restores the original selection |
| SleepProgress.ToggleTwiceMovesLast | frontend/src/components/SleepProgress.jsx:411 | Clicking a selected factor twice moves it, as a single copy, to the end of the list |
| SleepProgress.SomePositive | frontend/src/components/SleepProgress.jsx:281-282 | The "has data" flags hold exactly when some series entry is positive |
| SleepProgress.Clamp | frontend/src/components/SleepProgress.jsx:534 | The clamped percentage lies in the bounds and in-range values are kept |
| SleepProgress.RoundDiv | frontend/src/components/SleepProgress.jsx:534 | The rounded percentage is the nearest integer to the quotient, halves rounding up |
| SleepProgress.RingOf | frontend/src/components/SleepProgress.jsx:526-536 | Without data a ring shows value 0, a dash and "No data yet"; with data it shows the value, the percentage and its subtitle |
| SleepProgress.WakingsPct | frontend/src/components/SleepProgress.jsx:545-547 | The wakings score is full for no wakings and zero for one or more |
| SleepProgress.NoTrendDataRings | frontend/src/components/SleepProgress.jsx:522-536 | With no positive trend entry the daily and naps rings show a dash, "No data yet" and value 0 |
| SleepProgress.TrendDataRing | frontend/src/components/SleepProgress.jsx:522-536 | With trend data the daily ring shows the latest day's hours and a percentage between 0 and 200 |
| SleepProgress.DailyGoalPercent | frontend/src/components/SleepProgress.jsx:522-534 | Fourteen hours reads 100 percent and 28 hours or more reads the 200 percent cap |
| SleepProgress.NapsGoalPercent | frontend/src/components/SleepProgress.jsx:569-581 | Three naps read 100 percent and six or more read the 200 percent cap |
| SleepProgress.WakingsRingShows | frontend/src/components/SleepProgress.jsx:545-559 | The wakings ring shows a dash without data, 100 percent for zero wakings and 0 percent for one or more |
| SleepProgress.PositiveInWindow | frontend/src/components/SleepProgress.jsx:599-600 | A positive quality exists in the last 14 points exactly when one exists among the last 14 positions of the whole series |
| SleepProgress.QualityWindowIsRecent | frontend/src/components/SleepProgress.jsx:599-607 | The quality chart uses the last min(n, 14) points, a suffix of the series, and appears exactly when one of them is positive |
| SleepProgress.TimelineWindowIsRecent | frontend/src/components/SleepProgress.jsx:769 | The timeline shows the last min(n, 9) days, a suffix of the series |
| SleepProgress.DashboardOf | frontend/src/components/SleepProgress.jsx:598-607 | The quality chart is drawn exactly when the window has a positive point, and then over that window |
| SleepProgress.LoadError | frontend/src/components/SleepProgress.jsx:296 | The error shown is never empty and is the thrown message when that is non-empty |
| SleepProgress.Page.constructor | frontend/src/components/SleepProgress.jsx:181-186 | The page starts loading, with no error, no summary, no selected factors and today's date |
| SleepProgress.Page.View | frontend/src/components/SleepProgress.jsx:395 | The dashboard is shown exactly when loading has finished without error, and is built from the summary |
| SleepProgress.Page.Load | frontend/src/components/SleepProgress.jsx:284-307 | Loading always ends; a summary replaces the old one and shows the dashboard; a failure sets the error and hides it |
| SleepProgress.Page.LoadTodayFactors | frontend/src/components/SleepProgress.jsx:309-329 | Factors stored for today replace the selection; otherwise nothing changes |
| SleepProgress.Page.ToggleFactor | frontend/src/components/SleepProgress.jsx:409-419 | The selection is toggled at once, the new selection is saved for today, and the summary is refreshed only if saving succeeds |
| SleepProgress.Page.CheckDateChange | frontend/src/components/SleepProgress.jsx:336-350 | On the same day nothing changes; on a new day the date advances and the selection becomes today's stored factors or empty |
| SleepProgressNative.Screen.constructor | baby-sleep-native-fixed/app/sleep-progress.tsx:251-254 | The screen starts loading, with no error, no summary and no selected factors |
| SleepProgressNative.Screen.View | baby-sleep-native-fixed/app/sleep-progress.tsx:319-342 | A spinner exactly while loading, the error text exactly when loading ended with an error, otherwise the dashboard built from the summary |
| SleepProgressNative.Screen.LoadData | baby-sleep-native-fixed/app/sleep-progress.tsx:265-276 | Loading always ends; a summary replaces the old one and shows the dashboard; a failure shows the thrown message or the fallback text |
| SleepProgressNative.Screen.LoadTodayFactors | baby-sleep-native-fixed/app/sleep-progress.tsx:278-289 | Factors stored for today replace the selection; otherwise nothing changes |
| SleepProgressNative.Screen.HandleFactorToggle | baby-sleep-native-fixed/app/sleep-progress.tsx:291-304 | The selection is toggled at once, the new selection is saved for today, and the summary is refreshed only if saving succeeds |
| Icons.EmojiTargetsComplete | baby-sleep-native-fixed/src/components/icons/MinimalIcon.tsx:252-283 | Every emoji of the table maps to one of the eighteen icon names it lists |
| Icons.Resolve | frontend/src/components/icons/MinimalIcon.jsx:358-368 | An empty or missing token gives the fallback; an icon name is kept; an emoji gives its icon; anything else gives the fallback |
| Icons.ResolveDrawable | baby-sleep-native-fixed/src/components/icons/MinimalIcon.tsx:285-295 | When the table holds every emoji target, resolution yields the fallback or a drawable icon name |
| Icons.ResolveIdempotent | baby-sleep-native-fixed/src/components/icons/MinimalIcon.tsx:285-295 | Resolving a resolved name again gives the same name |
| IconsNative.EmojiTargetsAreNativeIcons | baby-sleep-native-fixed/src/components/icons/MinimalIcon.tsx:22-283 | Every emoji maps to an icon the mobile table has |
| IconsNative.ResolveIconName | baby-sleep-native-fixed/src/components/icons/MinimalIcon.tsx:285-295 | The result is the fallback or a mobile icon name; empty tokens give the fallback; known names are kept |
| IconsNative.Draw | baby-sleep-native-fixed/src/components/icons/MinimalIcon.tsx:297-325 | A known name draws that icon; a missing or unknown name draws 'chat', never the circle |
| IconsNative.UnknownNamesDrawChat | baby-sleep-native-fixed/src/components/icons/MinimalIcon.tsx:304-315 | 'profile' and 'warning' are not in the mobile table and are drawn as 'chat' |
| IconsWeb.LeafCompletesTable | frontend/src/components/icons/MinimalIcon.jsx:337-341 | 'leaf' is not in the icons literal but an emoji points at it; after the late assignment every emoji target is drawable |
| IconsWeb.ProfileAndWarningDrawn | frontend/src/components/icons/MinimalIcon.jsx:33-302 | The web table has 'profile' and 'warning' |
| IconsWeb.ResolveIconName | frontend/src/components/icons/MinimalIcon.jsx:358-368 | The result is the fallback or a web icon name; empty tokens give the fallback; known names are kept |
| IconsWeb.Draw | frontend/src/components/icons/MinimalIcon.jsx:343-356 | A glyph is drawn exactly for a known name, and it is that name; otherwise the circle |
| IconsWeb.Default | frontend/src/components/icons/MinimalIcon.jsx:4-9 | A destructuring default yields undefined only when the default itself is undefined |
| IconsWeb.SvgPropsAsWritten | frontend/src/components/icons/MinimalIcon.jsx:3-31 | The attributes always carry an 'aria-hidden' entry |
| IconsWeb.ExplicitUndefinedAriaHidden | frontend/src/components/icons/MinimalIcon.jsx:10-29 | An explicitly undefined 'aria-hidden' is spread back over the default and comes out undefined |
| IconsWeb.SvgProps | frontend/src/components/icons/MinimalIcon.jsx:3-31 | The attributes always carry 'aria-hidden', width and height |
| IconsWeb.SvgPropsDefaults | frontend/src/components/icons/MinimalIcon.jsx:5-28 | Width and height equal the size, 18 by default; 'aria-hidden' is 'true' when absent, undefined or null, and a string the caller gives is kept |
| IconsWeb.SvgPropsAgreeOtherwise | frontend/src/components/icons/MinimalIcon.jsx:10-29 | The corrected attributes equal the written ones for every input except an explicitly undefined 'aria-hidden' |
| IconsWeb.SvgPropsKeepsOtherAttributes | frontend/src/components/icons/MinimalIcon.jsx:8-29 | Any other attribute the caller passes comes through unchanged |

## Left out

**Backend and external services**
- Server-side channel, invitation, membership, opt-out and post-notification logic. It is not present in the modelled source: the backend files hold only table declarations, and the clients only forward requests.
- SQLite persistence and the Gemini call with its prompt assembly.
- Flask error responses, logging and log redaction.

**Transport and timing**
- HTTP transport (fetch/axios, timeouts, JSON decoding). Every reply is a parameter of the method that awaits it.
- The chat service's getConversations, getMessages and healthCheck are plain request forwarding.
- Concurrency and timers:
  - `Promise.all`;
  - notification polling intervals;
  - the midnight reset timeout of the web sleep-progress page (frontend/src/components/SleepProgress.jsx:366-385);
  - the `isMounted` guards, since every reply is applied as if the component were still mounted.

**Rendering, dates and text**
- The letter-by-letter reply animation of the web app (frontend/src/App.jsx:213-286). It is modelled by its final state, the full reply.
- Floating-point rendering of rings, charts and timelines. Ring values are exact reals, and percentages use rational round-half-up. A float that lands within rounding error of .5 may round differently.
- Locale-dependent text: `toLocaleDateString`, and the date strings of `new Date().toISOString()`. Today's date is a parameter.
- `localeCompare` is modelled as code-point lexicographic order.
- Unicode corner cases:
  - case mapping is modelled on ASCII letters only;
  - string slicing (`substring`, `slice`, `charAt`) works on whole characters, so a cut through a surrogate pair is not modelled;
  - cross-language agreement is proved only for ASCII input without the separator controls \x1c-\x1f.

**Login, forum and header**
- The forgot-password request flow of the login page (frontend/src/components/LoginPage.jsx:114-139) is left out. So are the page's other form fields, its router navigation and `isCheckingAuth`.
- Forum pieces that are left out:
  - post loading;
  - persisting the author name;
  - the delete, privacy and invite handlers;
  - the channel icon and description fields;
  - the error mapping of getChannels.
- Forum.Board.CreatePost: the alert text for a post without a selected channel is V8's TypeError wording. Other engines word it differently.
- AppHeader.Header.LoadUserData compares against the current picture field. The component's callback reads a stale closure, so it may compare against an older value.
- AppHeader: `charAt` splitting a surrogate pair, and multi-character upper-case mappings, are not modelled.

**Icons and sanitisers**
- Icons: JavaScript object-prototype keys (such as 'toString') that are truthy in the `icons[...]` lookups are outside the finite tables.
- Icons: the mobile `svgProps` and the SVG drawings themselves are not modelled.
- NativeValidation.SanitizeMessage and NativeValidation.SanitizePostContent: modelled at their default caps of 5000 and 10000. With an explicit maxLength they are the sanitiser itself (NativeValidation.Sanitized).
- NativeValidation.Truncate: compares and cuts by characters. The source's `length` and `substring` count UTF-16 units, so text with characters outside the Basic Multilingual Plane is cut later than the source cuts it.

**Other**
- deactivateAccount and the remaining profile and CRUD forms.

## Findings

| source | as written | input that shows it | evidently intended | confidence | as-written member | corrected member |
|---|---|---|---|---|---|---|
| frontend/src/api/authService.js:82-91 | checkSession turns every failure into unauthenticated, so the network-error branch of the session check in App.jsx is never taken and the stored credentials of a user without remember_me are cleared | the session request fails without a response (network error) while remember_me is not 'true' | keep the user logged in on a network error, as the comment at frontend/src/App.jsx:51 says; only a 401 should log out | not executed | App.WebNetworkErrorLogsOut | App.CorrectedKeepsUserOnNetworkError |
| frontend/src/components/icons/MinimalIcon.jsx:10-29 | 'aria-hidden' is removed from the spread rest only when its value is not undefined, so an explicitly undefined value is spread back over the 'true' default | props `{'aria-hidden': undefined}` | 'aria-hidden' is 'true' whenever the caller gives no value | not executed | IconsWeb.ExplicitUndefinedAriaHidden | IconsWeb.SvgPropsDefaults |
