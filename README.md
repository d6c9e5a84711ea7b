# Temporary identity generator, modelled in Dafny

This project models the core of a Python command-line tool that makes fake
personal identities. The `TemporaryIdentityGenerator` class (generator.py)
draws names, e-mail addresses, phone numbers, postal addresses, usernames,
birth dates and passwords from lookup tables. It can provision a disposable
mailbox on a mail service and poll that mailbox for a verification code or a
link. It assembles identities into dicts, projects a batch onto requested
fields and flattens nested dicts into CSV columns. The interactive shell
(identity_generator.py) splits input lines into words and dispatches on the
command word. It checks the arguments of `generate` and `check-inbox` before
acting, and it names the per-identity log files.

The modules follow the program's structure:

- `Common` covers optional values, the entropy source, ASCII lower-casing,
  and decimal rendering with its inverse.
- `Dict` is an insertion-ordered Python dict.
- `Fields` holds the seven field generators.
- `Mailbox` holds `generate_temp_email` and `check_inbox`.
- `Assembly` holds `generate_identity` and the dict it returns.
- `Batch` covers the batch loop, field projection and CSV flattening.
- `Shell` covers the command loop, the argument checks and the log names.

Randomness is modelled as arbitrary natural-number draws, with
`secrets.choice(xs)` as `xs[d % |xs|]`. Every generator contract therefore
holds for every outcome. The `...Reaches` lemmas prove the converse: every
value the contract allows comes from some draws.

The mail service is a function from attempt number to reply. `re.search` is
an uninterpreted `find(pattern, text)`. The current year, timestamps and
`time.sleep` durations are parameters or ghost logs.

Loops in the source are methods with loops: the retry loop, the polling
loop, the batch loop, the projection loop, the flattening loop, the command
loop and the log-name loop. Each method is proved equal to a specification
function, and lemmas state what the source promises about that function.

Two facts about the code shape the contracts:

- The number in a generated e-mail is `secrets.randbelow(1000)` printed
  without padding, so it has one to three digits.
- `csv.DictWriter` raises on a row key that is missing from the header
  (see Findings).

A choice from an empty list raises IndexError in the source. The model
requires non-empty lists only where the drawn outcome reads them: the
gender bucket the pick selects, the city list of the drawn state, and the
domain list only when the generated address is used.

## Model

| member | source | states |
|---|---|---|
| Fields.ResolveGender | generator.py:79-81 | the gender is the lower-cased argument, or one of male/female/neutral when the argument is empty or "any" in any case |
| Fields.Name | generator.py:77-89 | the first name comes from the resolved gender's list, or from the 'neutral' list when that gender has no entry; the last name comes from the country's list, or from the 'US' list; only the bucket selected by the gender pick must be non-empty |
| Fields.NameReaches | generator.py:77-89 | for every gender argument, "any" included, every first name of the argument's pool and every last name of the country's list are produced together by some draws that raise nothing |
| Fields.Email | generator.py:91-95 | the address is lower(first) "." lower(last), then a number below 1000 without padding, then "@" and a configured domain |
| Fields.EmailReaches | generator.py:91-95 | every address of that shape is produced by some draws |
| Fields.FillTemplate | generator.py:139 | the phone has the template's length, every non-'#' character is kept in place, and every '#' becomes a decimal digit |
| Fields.Phone | generator.py:136-140 | the phone fits the country's template, or the 'US' template for an unknown country |
| Fields.FillTemplateReaches | generator.py:139 | every string that fits a template is produced by some digit draws |
| Fields.MakeAddress | generator.py:142-153 | the country is the input when it is a state-map key, else 'US'; the state belongs to that country; the city is in the state's list, or in the 'CA' list when the state has none; the street is "<n> <name>" with n < 1000; only the city list of the drawn state must be non-empty |
| Fields.AddressReaches | generator.py:142-153 | every address of that shape is produced by some draws that raise nothing |
| Fields.Username | generator.py:155-159 | the username is lower(first) + lower(last) followed by exactly four lowercase hex digits |
| Fields.UsernameReaches | generator.py:155-159 | every four-hex-digit suffix is produced by some draws |
| Fields.FormatDate | generator.py:169 | the YYYY-MM-DD rendering with zero-padded month and day parses back to the same date; the year is printed unpadded, so the string is exactly six characters longer than the year's decimal form |
| Fields.BirthDateString | generator.py:161-169 | when min_age <= max_age, the string is a formatted date with year in [now-max_age, now-min_age], month in 1..12 and day in 1..28 |
| Fields.BirthDateReaches | generator.py:161-169 | every date in that range is produced by some draws |
| Fields.Password | generator.py:171-174 | the password has 12 characters, each a letter, a digit or ASCII punctuation |
| Fields.PasswordReaches | generator.py:171-174 | every such 12-character string is produced by some draws |
| Fields.DefaultTablesReady | generator.py:25-35 | the built-in tables satisfy every lookup and non-empty-choice condition, for any gender, country and draw |
| Fields.DefaultCityFallback | generator.py:34 | The built-in states TX, DL and KA have no city list, so their city is drawn from the 'CA' list. |
| Mailbox.ProvisionFrom | generator.py:97-134 | at most 3 attempts; every attempt before the last was retried after a request error; a run ending early stopped on an empty domain list or a created mailbox; an address is returned iff the last attempt created one; no address means no token |
| Mailbox.GenerateTempEmail | generator.py:97-134 | the loop returns exactly what ProvisionFrom describes, and it slept 2^0, 2^1, ... once after each failed attempt except the last |
| Mailbox.ProvisionExhausted | generator.py:99-134 | three failed attempts give (None, None), with sleeps [1, 2] |
| Mailbox.ProvisionNoDomains | generator.py:105-108 | an empty domain list ends the run after one attempt, with no sleep and (None, None) |
| Mailbox.ProvisionCreatedAt | generator.py:99-126 | when every earlier attempt failed with a retryable error, the first attempt that creates a mailbox decides the run: its address, its token as replied (None when the reply has no token), and that many attempts |
| Mailbox.MessageHit | generator.py:224-231 | a message yields nothing iff neither pattern matches; a code is the code pattern's match; a link is returned only when the code pattern found nothing |
| Mailbox.ScanMessagesFirstHit | generator.py:219-231 | a round's hit is the hit of its first matching message, and only when every earlier message was fetched and matched nothing |
| Mailbox.ScanRound | generator.py:219-231 | the message loop of one round returns exactly the hit ScanMessages describes, stopping at the first fetch failure or match |
| Mailbox.PollFrom | generator.py:210-236 | at most poll_attempts rounds; at most one of code and link is returned; with no match, every round was polled and found nothing; with a match, it is the hit of the first round that has one |
| Mailbox.CheckInbox | generator.py:210-236 | the loop returns what PollFrom describes and sleeps poll_interval after every round without a match, including the last |
| Mailbox.CodeBeforeLink | generator.py:224-231 | scenario: a first round holding one message that matches both patterns yields the code, with no link |
| Mailbox.LinkOnlyWithoutCode | generator.py:224-231 | a returned link comes from a message in which the code pattern found nothing |
| Assembly.ChooseEmail | generator.py:182-192 | a truthy manual e-mail wins; otherwise a provisioned mailbox is used when temp e-mail is on; otherwise the generated address; the token is kept only with a provisioned mailbox; the domain list is needed only for the generated address |
| Assembly.ProvisionedNonEmpty | generator.py:186-189 | a provisioned address is never empty, so the fallback happens only when provisioning returned None |
| Assembly.GenerateIdentity | generator.py:176-208 | full_name is first + " " + last, built from the same pair as username and e-mail; the e-mail follows the priority above; email_token is present iff a non-empty token was obtained; the birthdate is a date in the age range, rendered as YYYY-MM-DD; each other field meets its generator's contract |
| Assembly.ToRecord | generator.py:194-207 | the dict has the ten literal keys in order, then 'email_token' only with a token; keys are unique; full_name, address and email_token map to the identity's values |
| Assembly.ToRecordValues | generator.py:194-205 | each of the ten literal keys maps to the identity's own field: first_name, last_name, full_name, email, phone, the address dict, username, birthdate, password and created |
| Dict.Put | generator.py:321 | assigning a present key keeps the key order and replaces its value; a new key is appended; other keys are unaffected |
| Dict.PutUnique | generator.py:321 | assignment keeps keys unique |
| Batch.AddressSubkey | generator.py:325 | `field.split('_')[1]` of an address field names an address subkey |
| Batch.Lookup | generator.py:320-327 | a top-level key resolves to its value; otherwise only an address field resolves, to the address dict's subkey as text; any other name resolves to nothing |
| Batch.ProjectIdentity | generator.py:317-328 | the filtering loop builds exactly the projection Project describes |
| Batch.ProjectGet | generator.py:317-328 | the projected dict maps each requested field to the value it resolves to, maps no unrequested or unresolvable field, and has unique keys |
| Batch.ProjectOrder | generator.py:317-328 | the projected keys are requested fields, ordered by their first request |
| Batch.AddressFieldsResolve | generator.py:322-327 | each address_x field of a generated identity resolves to the address's x |
| Batch.ResolvesExactly | generator.py:311-327 | a field of a generated identity resolves iff it is one of the fifteen valid names, and 'email_token' needs a token; every other name is dropped |
| Batch.BatchIdentity | generator.py:316-328 | one iteration yields the generated dict, projected when a non-empty field list is given |
| Batch.GenerateBatch | generator.py:310-329 | the loop builds exactly the entries Entries describes, for max(count, 0) iterations, when each iteration's world is ready |
| Batch.EntriesAt | generator.py:315-329 | the batch has n entries, and the i-th is the i-th iteration's entry |
| Batch.BatchShape | generator.py:315-329 | the batch has max(count, 0) entries, the i-th generated in world i |
| Batch.ReadyEntry | generator.py:315-329 | in a batch whose first n worlds are ready, the i-th entry is the identity generated in world i, filtered |
| Batch.ProjectedIdentity | generator.py:317-328 | projecting an identity's dict onto a field list keeps exactly the requested fields that are valid names, 'email_token' only with a token, each once, mapped to the identity's values |
| Batch.FilteredFields | generator.py:315-329 | without fields, an iteration keeps the full identity dict; with fields, its keys are exactly the requested valid fields that resolve, each once, with the identity's values |
| Batch.FlattenEntry | generator.py:263-268 | one entry's flattening performs its assignments in order: each subkey of a nested dict as key_subkey, or the key itself |
| Batch.FlattenRecord | generator.py:261-269 | the flattening loop computes Flattened: every assignment of the dict's entries performed in order, with nested entries expanded to key_subkey |
| Batch.FlattenIdentities | generator.py:260-269 | every dict of the batch is flattened, in order |
| Batch.AssignDistinct | generator.py:262-268 | when no two assignments share a key, the flat dict is exactly the assignment list |
| Batch.IdentityFlattened | generator.py:258-269 | a flattened identity is its CSV row: the address becomes four address_x columns in place, every other key keeps its position and value, and nothing is lost to a clash |
| Batch.RowColumns | generator.py:258-269 | the CSV columns are the thirteen identity columns, plus 'email_token' with a token, all distinct |
| Batch.TokenColumn | generator.py:206-207 | a flattened identity has an 'email_token' column iff the identity has a token |
| Batch.CsvHeader | generator.py:272 | the header exists iff the batch is non-empty (an empty batch raises IndexError) |
| Batch.BatchCsvHeader | generator.py:258-274 | the header of a saved full batch is the first identity's columns |
| Batch.HeaderMissesLaterToken | generator.py:272-274 | a batch whose first identity has no token and whose second has one gets a header without 'email_token', although the second row has that column |
| Batch.CsvColumnsCover | generator.py:272-274 | the corrected header holds every column of every row, once each, and begins with the header as written |
| Shell.ValidateGenerate | identity_generator.py:57-71 | the checks run in source order with the source's messages: count < 1; then an age range outside 0 <= min <= max <= 120; then temp e-mail together with a manual e-mail; then encryption with CSV; an invalid field name turns the whole field list into None with a warning, and everything else passes unchanged |
| Shell.ValidateGenerateProceeds | identity_generator.py:57-73 | generate proceeds iff no check fails, and whatever proceeds satisfies every check, including a field list with only valid names |
| Shell.InvalidFieldsDropAll | identity_generator.py:69-71 | one invalid name drops the whole field list rather than filtering it |
| Shell.ValidateCheckInbox | identity_generator.py:114-119 | attempts < 1 is rejected first, then interval <= 0, each with its message; otherwise the arguments pass unchanged |
| Shell.SplitWords | identity_generator.py:20-21 | every word is non-empty and contains no whitespace |
| Shell.SplitWordsKeepsText | identity_generator.py:20-21 | the words, concatenated, are the line with its whitespace removed |
| Shell.SplitWordsCut | identity_generator.py:21 | after leading whitespace, a run of non-whitespace that ends at whitespace or at the end of the line is split off as one whole word, and splitting goes on with the rest |
| Shell.SplitWordsEmpty | identity_generator.py:21-23 | a line has no words iff it is all whitespace |
| Shell.React | identity_generator.py:20-139 | a line is ignored iff it is all whitespace; it stops the loop iff its first word is 'stop' in any ASCII case; it is an unknown command iff its first word is none of stop, clean, generate and check-inbox |
| Shell.ReactDispatch | identity_generator.py:28-119 | 'clean' clears the screen; for 'generate' and 'check-inbox', words argparse refuses give the invalid-arguments answer, a failed check answers with that check's own message (count, age range, e-mail conflict and CSV encryption for generate, then attempts and interval for check-inbox, each only when the earlier checks pass), and arguments that pass every check start the batch with the validated arguments or poll the inbox with the parsed ones |
| Shell.RunShell | identity_generator.py:13-139 | the loop produces exactly the reactions Reactions describes |
| Shell.ReactionsInOrder | identity_generator.py:13-27 | the i-th reaction answers the i-th line; only the last reaction can be a stop; the loop stops right after the first stop and otherwise answers every line |
| Shell.NoRejectedArgumentsProceed | identity_generator.py:57-120 | no argument set that fails a check reaches generation or polling |
| Shell.DispatchIgnoresCase | identity_generator.py:25-35 | a command word that differs only in ASCII case dispatches the same way |
| Shell.LogName | identity_generator.py:96-99 | a log name is 'identity_details_' and the timestamp, then possibly more, and ends in '.log' |
| Shell.SaveLogNames | identity_generator.py:94-99 | the i-th name uses the timestamp read in iteration i, with the `_<i+1>` suffix when there is more than one identity |
| Shell.LogNameSuffix | identity_generator.py:96-99 | a name carries the position suffix iff more than one identity was generated |
| Shell.LogNamesDistinct | identity_generator.py:95-99 | in a batch of several identities, with timestamps of equal length, all names differ even if the clock ticks between iterations |

## Left out

- utils.py is not part of this model: colour detection, the banner and logging setup.
- The HTTP requests to the mail service are left out. They appear as per-attempt replies.
- A reply whose JSON cannot be decoded counts as a failed request. With requests 2.27 and later, `response.json()` raises `requests.JSONDecodeError`, a `RequestException`, so such a reply is caught, logged and retried like the failed replies of the model. Older versions of requests raise a plain ValueError that escapes; that case is left out.
- The 12-character password posted when creating a mailbox is left out; it is only sent to the service.
- `re.search` is left out. It appears as an uninterpreted function of pattern and text.
- Encryption is left out: PBKDF2-HMAC-SHA256 key derivation and Fernet.
- JSON, YAML and CSV serialisation and all file writes are left out. The CSV writer's own row handling appears only through the header (see Findings).
- Loading configuration files is left out. The tables are inputs, and a loaded table that fails its check is kept, as in the source. The built-in tables are given as a constant.
- `display_identity`, the preview and hint output, screen clearing and argparse's own parsing are left out. argparse appears as a parser function that may fail.
- Real values of `datetime.now()` and `time.sleep` are left out. The year and the timestamps are parameters, and sleeps are ghost logs.
- The entropy source is left out. It appears as arbitrary draws, so its unpredictability is not modelled.
- Shell.React: the command word is lower-cased in ASCII only, while Python's `str.lower` also folds non-ASCII letters. "chec\u212A-inbox", spelled with the Kelvin sign, dispatches to check-inbox in Python but is an unknown command in the model.
- Shell.DispatchIgnoresCase: case folding is ASCII only, for the same reason as Shell.React.
- Fields.Email: the name parts are lower-cased in ASCII only. Python's `str.lower` also folds non-ASCII capitals, so for a name such as "Élodie" the source's address starts with "élodie" while the model keeps "Élodie".
- Fields.Username: the same ASCII-only lower-casing. Python's `str.lower` can also lengthen a string ('İ' becomes two characters), so the length `|first| + |last| + 4` holds only for names whose lower-casing keeps their length.
- Assembly.GenerateIdentity: e-mail and username carry the ASCII-only lower-casing of Fields.Email and Fields.Username.
- Shell.ValidateCheckInbox: the poll interval is a real number. A Python float can also be NaN or infinity; both pass the `<= 0` check and make `time.sleep` raise inside check_inbox, which is not modelled.
- Assembly.GenerateIdentity: the IndexError raised when a draw chooses from an empty list is not modelled; the precondition requires every list the drawn outcome reads to be non-empty.
- Batch.GenerateBatch: an iteration whose world is not ready raises in the source; the batch is modelled only when every iteration's world is ready, and the entry function gives a placeholder for other worlds.
- Shell.RunShell: the loop ends when its input lines run out; the source would raise EOFError at end of input.
- Shell.RunShell: exceptions raised during generation or polling, which the loop reports and survives, are not modelled.
- Mailbox.CheckInbox: the poll interval is recorded, not added up.
- Mailbox.GenerateTempEmail: the sleeps are ghost, so the method's non-ghost outputs are (email, token).

## Findings

| source | as written | input that shows it | evidently intended | confidence | as-written member | corrected member |
|---|---|---|---|---|---|---|
| generator.py:272 | the CSV header is the key list of the first flattened identity only | `generate --count 2 --use-temp-email --save --format csv`, where provisioning fails for the first identity and succeeds with a token for the second: the second row has an `email_token` column the header lacks, and `csv.DictWriter` raises ValueError | a header covering the columns of every row | medium, not executed | Batch.HeaderMissesLaterToken | Batch.CsvColumnsCover |
