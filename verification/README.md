# Turbets roulette: a Dafny model of the betting, ledger and account core

Turbets is a browser roulette site on an Express server with MongoDB. This
project models the parts of it that decide money and access. Each part is a
pure Dafny function over immutable data, with the properties the code
promises proved about it.

- **Settlement** (`verificarApuesta`, `obtenerMultiplicador`) decides
  whether a bet wins for a winning number, and prices it. It covers the
  fifteen bet types, from `pleno` to `pasa`. Selections are untyped JSON
  values compared with `===`. Composite selections are strings split on
  `,` or `-` and read with `parseInt`.
- **The betting handlers** `/apuesta` and `/resultado-apuesta` are
  transitions over the player's balance and the bet document. They are
  modelled both as written and in corrected form.
- **The ledger handlers** `/deposito` and `/retiro` of the route files,
  their `Transaction` record, and the older record-less copies in
  `server.js`.
- **The account handlers** `/registro` and `/login`. This covers the
  e-mail pattern, the order of the registration checks, the opening
  balance, login normalisation, the password bounds and the redirect. The
  older copies in `server.js` are modelled too.
- **The two schemas** `Apuesta` and `Transaction`: the enumerations, the
  required paths, the minimum and the defaults. The schemas modelled are
  `server/models/Apuesta.js` and `server/models/Transaction.js`. The route
  files load theirs from `server/backend/models/`, which is not part of
  this model; the bet schema is assumed to be the same, and the owner path
  of the ledger schema is a parameter (`user`, as in
  `server/models/Transaction.js`, or `user_id`, the key the handlers write).
- **The client** `ruleta.js`:
  - the wheel order and colours;
  - the stake and selection it sends;
  - the display names of the bet types;
  - the balance change it shows;
  - the two "last five" history lists.

The JavaScript primitives the code leans on are written out in `JsText`:
`trim`, `split`, `parseInt` with no radix, UTF-16 `length`, `toLowerCase`
and the truncating `%`.

Some handlers appear twice in the source. `server/backend/post.js` lines
3-173 repeat `auth.js`, lines 182-285 repeat `transactions.js`, lines
289-362 repeat the handlers of `game.js`, and lines 366-461 repeat its
settlement functions. Each is modelled once, from the route file.

Persistence is passed in as values:
- the balance read from the user document;
- the bet found by id (`None` when there is none);
- the lookups, the birth-date verdict and the password-hash comparison, as
  inputs.

Money is whole numbers. The factor 1.5 is the exact ratio 3/2, and the
payout is the floor of stake × factor, computed exactly.

In these places the model follows the code:
- A bet type outside the fifteen loses and is priced at 1. It is not a
  fatal error. Placement never stores such a bet, because the schema's
  enum rejects it.
- A settled bet can be settled again. There is no check that the bet is
  pending.
- The amount credited for a win includes the returned stake. A winning
  `pleno` of 100 pays 3600, after the 100 was debited at placement. The
  client's comment at `ruleta.js:264` calls the payout the pure gain.
- The payout goes to the caller's balance, not to the bet owner's.
- The server accepts any stake, including a negative one. The client
  refuses a stake that is not positive (`ruleta.js:111`).
- A column bet staked on 0 wins on column 3, because the rule compares the
  residue `% 3` with 0 for column 3 (`game.js:142`). It pays as a stake on
  3 would.

Settling a bet twice, paying the caller and the negative stake are listed
under Findings, with corrected handlers beside the ones as written.

## Model

| member | source | states |
|---|---|---|
| Records.ParseBetType | server/models/Apuesta.js:13-18 | a string passes the enum check exactly when it is the stored name of one of the fifteen bet types, and that type is the one returned |
| Records.NameRoundTrip | server/models/Apuesta.js:13-18 | every bet type is accepted under its own stored name |
| Records.NewBet | server/models/Apuesta.js:3-36 | a bet document validates exactly when its type is in the enum; it then carries the owner, stake, type and selection given, is unresolved and has payout 0; otherwise the error names `tipoApuesta` |
| Records.CreateTransaction | server/models/Transaction.js:3-36 | under strict mode, a ledger record is created exactly when the owner is written under the schema's owner path and the amount is non-negative; it keeps the fields given and starts `Pending`; the error names exactly the failing paths |
| JsText.TrimStartShape | server/backend/routes/game.js:96-110 | leading trim removes exactly a white-space prefix, up to a character that is not white space |
| JsText.TrimEndShape | server/backend/routes/game.js:96-110 | trailing trim removes exactly a white-space suffix |
| JsText.TrimShape | server/backend/routes/auth.js:55-60 | `trim` returns the slice of the input surrounded only by white space, and the slice neither starts nor ends with white space |
| JsText.TrimIdempotent | server/backend/routes/auth.js:129 | trimming twice is trimming once |
| JsText.TrimNoEdges | server/backend/routes/auth.js:129 | a string without white space at either end is its own trim |
| JsText.Utf16Length | server/backend/routes/auth.js:50-52 | `length` counts UTF-16 units: between one and two per character, exactly one each when there is no supplementary character |
| JsText.Utf16LengthCounts | server/backend/routes/auth.js:50-52 | `length` is the number of characters plus the number of positions holding a supplementary-plane code point |
| JsText.ToLower | server/backend/routes/auth.js:129 | lower-casing keeps the length, changes only upper-case letters, moves each one up by 32 code points to its lower-case letter, and leaves none |
| JsText.ToLowerIdempotent | server/backend/routes/auth.js:129 | lower-casing twice is lower-casing once |
| JsText.JoinSplit | server/backend/routes/game.js:96-98 | joining the pieces of `split` with the separator gives the string back |
| JsText.SplitJoin | server/backend/routes/game.js:96-98 | splitting pieces that are joined by a separator they do not contain gives the pieces back |
| JsText.Digits | server/backend/routes/game.js:97 | `parseInt` finds no number exactly when the text starts with no digit of the radix |
| JsText.ParseDec | server/backend/routes/game.js:97 | `parseInt` reads every decimal numeral back as its number |
| JsText.ParseNoDigit | server/backend/routes/game.js:97 | a piece whose first character is neither white space, a sign nor a decimal digit reads as NaN |
| JsText.JsRem | server/backend/routes/game.js:118-122 | `%` for a positive divisor agrees with the mathematical remainder on non-negative numbers and carries the dividend's sign otherwise, and the dividend minus it is always a multiple of the divisor |
| Settlement.Verify | server/backend/routes/game.js:86-160 | a type outside the fifteen loses without error (`default`); a throw needs a known type and a selection that is not a string |
| Settlement.TableMultiplier | server/backend/routes/game.js:162-179 | every listed factor is at least 1 and has a positive denominator |
| Settlement.Multiplier | server/backend/routes/game.js:162-181 | a type outside the table falls back to the factor 1 |
| Settlement.Payout | server/backend/routes/game.js:56-60 | the payout is the floor of stake times factor: the largest whole number not above it |
| Settlement.ZeroLosesOutside | server/backend/routes/game.js:112-155 | on 0 every outside bet loses, whatever was staked |
| Settlement.RedBlackPair | server/backend/routes/game.js:112-116 | on 1..36 exactly one of rojo and negro wins |
| Settlement.ParityPair | server/backend/routes/game.js:118-122 | on 1..36 par wins exactly on the even numbers and impar exactly on the odd ones, so exactly one of them wins |
| Settlement.LowHighPair | server/backend/routes/game.js:124-128 | on 1..36 falta wins exactly on 1..18 and pasa exactly on 19..36, so exactly one of them wins |
| Settlement.DozenWins | server/backend/routes/game.js:130-135 | a dozen bet on the number k wins exactly when k is the winning number's dozen |
| Settlement.ColumnWins | server/backend/routes/game.js:137-142 | a column bet wins exactly when it names the winning number's column, or when it names 0 and the number is in column 3 |
| Settlement.IntervalSize | server/backend/routes/game.js:130-135 | the whole numbers lo..hi are hi-lo+1 in number |
| Settlement.DozenSize | server/backend/routes/game.js:130-135 | the dozen bet on k in 1..3 wins on exactly the twelve numbers 12k-11..12k |
| Settlement.ColumnPartSize | server/backend/routes/game.js:137-142 | among 1..3n each column holds exactly n numbers |
| Settlement.ColumnSize | server/backend/routes/game.js:137-142 | the column bet on k in 1..3 wins on exactly the twelve numbers of column k |
| Settlement.TwoDozensAreUnions | server/backend/routes/game.js:144-148 | a two-dozen bet wins exactly when one of the two dozens it names would win |
| Settlement.TwoColumnsAreUnions | server/backend/routes/game.js:150-155 | a two-column bet wins exactly when one of the two columns it names would win |
| Settlement.PlenoExact | server/backend/routes/game.js:93-94 | a straight-up bet never throws and wins only on the very number staked, never on a string spelling it |
| Settlement.ReadNumerals | server/backend/routes/game.js:96-110 | splitting and parsing a separator-joined list of decimal numerals gives the numbers back |
| Settlement.ListStake | server/backend/routes/game.js:96-106 | caballo, transversal and cuadro selections written as canonical decimal numerals joined by the separator win exactly on the numbers listed |
| Settlement.SeisenaStake | server/backend/routes/game.js:108-110 | a seisena selection `a-b` wins exactly on a..b, and pieces after the second are ignored |
| Settlement.CompositeNeedsString | server/backend/routes/game.js:96-110 | a composite bet throws exactly when its selection is not a string |
| Settlement.StoredTypesUseTable | server/backend/routes/game.js:162-181 | every type a stored bet can carry is priced by the table, with a factor above 1 |
| Game.Place | server/backend/routes/game.js:10-42 | the handler answers 400 with the balance untouched exactly when it is below the stake; otherwise it debits the stake, and it creates a pending bet with the fields given exactly when the type is in the enum |
| Game.Resolve | server/backend/routes/game.js:45-82 | a missing bet or a throwing settlement fails before anything is saved; otherwise the balance gains the payout of a win, and the bet records the outcome, the number and the payout, with its other fields unchanged |
| Game.WinPaysAtLeastStake | server/backend/routes/game.js:56-64 | a winning bet with a non-negative stake pays back at least its stake, and exactly the floor of stake times the factor; a losing bet pays 0 and leaves the balance |
| Game.ResolveTwiceCreditsTwice | server/backend/routes/game.js:45-82 | a settled bet handed back to the handler settles again the same way and is credited a second time |
| Game.DoubleCreditExample | server/backend/routes/game.js:49-70 | a pleno of 100 on 17, settled twice on 17, brings the balance from 0 to 7200 |
| Game.ForeignBetExample | server/backend/routes/game.js:49-60 | another user's winning bet pays into the caller's balance; the corrected handler refuses it |
| Game.NegativeStakeExample | server/backend/routes/game.js:16-22 | a stake of -100 passes the balance check and raises the balance to 100, and a win then leaves -3500 |
| Game.UnknownTypeKeepsDebit | server/backend/routes/game.js:20-31 | a type outside the enum costs the stake and creates no bet |
| Game.PlaceChecked | server/backend/routes/game.js:10-42 | corrected placement: a rejection leaves the balance; a bet is accepted exactly when the stake is positive, covered and the type known, and the balance then stays non-negative |
| Game.PlaceCheckedAgrees | server/backend/routes/game.js:10-42 | where the corrected placement accepts, the handler as written creates the same bet and stores the same balance |
| Game.ResolvePending | server/backend/routes/game.js:45-82 | corrected settlement refuses a settled bet and another user's bet, and otherwise settles as the handler does |
| Game.SettlesOnce | server/backend/routes/game.js:45-82 | with the corrected settlement a bet is credited at most once, whatever a second request brings |
| Game.RoundNet | server/backend/routes/game.js:10-82 | with the corrected handlers a round changes the balance by payout minus stake, keeps it non-negative, and a win never leaves the player worse off |
| Ledger.Deposit | server/backend/routes/transactions.js:10-58 | an amount that is not a positive finite number is refused with the balance untouched; otherwise the balance grows by the amount, and the record written under `user_id` is stored exactly when the schema's owner path is `user_id`, failing for want of its owner otherwise |
| Ledger.Withdraw | server/backend/routes/transactions.js:61-113 | as for deposit, and a short balance is refused untouched; otherwise the balance shrinks by the amount, and the record is stored exactly when the schema's owner path is `user_id`, failing for want of its owner otherwise |
| Ledger.DepositFixed | server/backend/routes/transactions.js:10-58 | the deposit with the owner under `user`: every accepted deposit stores its record |
| Ledger.WithdrawFixed | server/backend/routes/transactions.js:61-113 | the withdrawal with the owner under `user`: every accepted withdrawal stores its record |
| Ledger.DepositRecorded | server/backend/routes/transactions.js:34-43 | the record of a deposit names the user and type, and its balances before and after differ by its amount |
| Ledger.WithdrawRecorded | server/backend/routes/transactions.js:89-98 | the record of a withdrawal names the user and type, and its balances before and after differ by its amount |
| Ledger.RecordDependsOnSchema | server/backend/routes/transactions.js:37-43 | whatever the schema, the handlers as written move the balance as the corrected ones do; under an owner path `user_id` they are the corrected handlers, and under the `user` of `server/models/Transaction.js` they never answer success |
| Ledger.LegacyAgrees | server/server.js:255-336 | the older handlers move the balance as the corrected ones do and succeed exactly when they do, but store no record |
| Ledger.StepRecord | server/backend/routes/transactions.js:10-113 | one request keeps a non-negative balance non-negative; a stored record describes exactly the change made, and a refused request changes nothing |
| Ledger.RunKeepsLedger | server/backend/routes/transactions.js:10-113 | over any sequence of requests, the balance stays non-negative; the records chain from the first balance to the last; and each belongs to the user and moves a positive amount |
| Auth.IndexOf | server/backend/routes/auth.js:44 | the position found holds the character and none before it does; -1 means the character is absent |
| Auth.EmailCheckIsPattern | server/backend/routes/auth.js:44-47 | the pattern `^[^\s@]+@[^\s@]+\.[^\s@]+$` accepts exactly the strings with no white space and a single `@` after something, followed by a `.` that is neither first nor last |
| Auth.Register | server/backend/routes/auth.js:8-110 | an account is created only from a complete form with matching passwords, a well-formed e-mail and long enough password, username and full name; it holds the submitted fields and 5000 |
| Auth.ChecksAsChained | server/backend/routes/auth.js:38-60 | each check's stand-alone condition is the one the chain evaluates |
| Auth.FirstFailureWins | server/backend/routes/auth.js:27-84 | `/registro` reports a check exactly when that check fails and all earlier ones pass, and creates the account exactly when none fails |
| Auth.LegacyRegister | server/server.js:127-198 | the older handler checks, in order, completeness, the confirmation, the e-mail lookup and the username lookup, reporting the first that fails; a complete, matching form with an unused e-mail and username opens the account as submitted with 0 |
| Auth.LegacyAcceptsMore | server/server.js:127-198 | every form the current handler accepts the older one accepts too, with the same account but balance 0 |
| Auth.LegacyLooserExample | server/server.js:146-172 | the older handler accepts the e-mail `ana` with the password `x`, which the current one refuses |
| Auth.NormalizeEmail | server/backend/routes/auth.js:129 | the normalised e-mail is the trimmed slice of the input, character by character lower-cased; it has no upper-case letter and no white space at either end |
| Auth.NormalizeIdempotent | server/backend/routes/auth.js:129 | normalising twice is normalising once |
| Auth.Login | server/backend/routes/auth.js:113-178 | a missing field gives the credentials message; then, in order, a malformed normalised e-mail, a password outside 1..128 units, and an unknown account or wrong password each give their own message; a session is granted exactly when all pass, for the account of the normalised e-mail, and goes to the saved redirect when there is one, else to `/perfil` |
| Auth.LoginIgnoresCaseAndSpace | server/backend/routes/auth.js:129-147 | an address and its normalised form log in the same way |
| Auth.LongPasswordRefused | server/backend/routes/auth.js:138-140 | a password over 128 units is refused before any lookup |
| Auth.LegacyLogin | server/server.js:201-246 | the older login grants a session exactly when both fields are given, the e-mail as typed is stored and the hash matches, for that account and always to `/perfil`; otherwise it gives the credentials message |
| Auth.LegacyLoginAgrees | server/server.js:201-246 | for an address already in normal form, every login the current handler grants the older one grants to the same account, sent to `/perfil` |
| Wheel.ColorOf | server/public/js/ruleta.js:7-9 | 0 alone is green, and a pocket is red exactly when it is in the red set |
| Wheel.NumbersCWIsPermutation | server/public/js/ruleta.js:2-5 | the wheel lists each of the 37 pockets exactly once, starting at 0 |
| Wheel.GreenIsZero | server/public/js/ruleta.js:9 | 0 is the only green pocket |
| Wheel.RedPainted | server/public/js/ruleta.js:7-8 | the pockets painted red are exactly the red set |
| Wheel.BlackPainted | server/public/js/ruleta.js:7-9 | the pockets painted black are exactly the other eighteen non-zero pockets |
| Wheel.ColorCounts | server/public/js/ruleta.js:7-9 | eighteen pockets are red and eighteen black, and none is both |
| Wheel.Alternates | server/public/js/ruleta.js:2-8 | after the zero, red and black alternate around the wheel, red first |
| Client.RedSetsAgree | server/public/js/ruleta.js:7 | the client's red set is the one the server settles with |
| Client.ColourBetsMatchWheel | server/public/js/ruleta.js:96-98 | rojo wins exactly on the pockets the client announces as red, negro exactly on those it announces as black |
| Client.DisplayNames | server/public/js/ruleta.js:75-94 | each bet type has its own capitalised label, and a string that names no type is shown as it is |
| Client.DisplayName | server/public/js/ruleta.js:75-94 | a name that comes back lower-case is the input itself |
| Client.ClientStake | server/public/js/ruleta.js:110-114 | the client sends a stake exactly when `parseInt` reads a positive number from the field, and sends that number |
| Client.ClientValor | server/public/js/ruleta.js:117-137 | pleno, docena and columna send the number `parseInt` reads from the field, or null; the composite and two-group types send the field's text; the even-money types and unknown types send the type's own name |
| Client.ClientSelectionsSettle | server/public/js/ruleta.js:117-137 | no selection the client builds makes the settlement throw, and a pleno whose field is not a number never wins |
| Client.VariationBaselines | server/public/js/ruleta.js:260-266 | for a win the shown change is measured from the balance after the debit; for a loss it is measured from the balance before the bet |
| Client.PushRecent | server/public/js/ruleta.js:240-244 | adding to a history list puts the new entry first and keeps the newest five |
| Client.RecordRound | server/public/js/ruleta.js:231-291 | a settled round adds its number with its colour to one list and the bet with its name and change to the other |
| Client.HistoryKeepsLastFive | server/public/js/ruleta.js:240-290 | starting empty, each list holds the last five entries added, newest first |

## Left out

- HTTP, rendering, cookies other than the redirect value, sessions and the
  `requireAuth` middleware. The caller's identity is a parameter.
- bcrypt and MongoDB. The password comparison, the account and bet lookups,
  and `findOne` on e-mail and username are inputs. `User.js` is not part of
  this model, so no property of the user schema (for instance lower-casing
  of e-mails) is assumed.
- The birth-date parse and the age computation (`auth.js:63-71`). They
  arrive as the verdict `NotADate`, `Minor` or `OfAge`.
- The account that vanishes between authentication and a deposit
  (`transactions.js:29-32`, a redirect to the login page). In `/retiro` a
  vanished account gets the short-balance answer, which the model gives
  only for a short balance. Also left out: the 500 of the catch blocks for
  database errors other than validation.
- Concurrency and atomicity. `/apuesta` reads, compares and saves the
  balance in separate steps, and the model treats each handler as one step.
- Floating point. Stakes, balances and amounts are whole numbers. The
  Decimal128 stake, `parseFloat(monto.toString())`, `Number(monto)` of a
  fractional string, and the floating product `monto * 1.5` are exact here.
  A fractional amount is outside `JsNumber`.
- Non-numeric request values. A stake, a winning number or an amount
  arriving as a string, an array or an object (coerced by `<`, `-=` or
  `===`) is not modelled. Stakes and winning numbers are integers; only the
  selection is an untyped JSON value.
- Auth.Register: form fields are strings or absent. The `typeof` checks at
  `auth.js:50`, `55` and `58` matter only for non-string bodies, which the
  model does not produce. For the same reason, `password.length < 1` at
  `auth.js:138` can never fire after `!password` has passed.
- Records.NewBet: models `server/models/Apuesta.js`. The route files load
  `server/backend/models/Apuesta.js`, which is not part of this model, and
  it is assumed to declare the same enum, paths and defaults.
- Game.UnknownTypeKeepsDebit: rests on the same assumption about the bet
  schema the routes load.
- Records.CreateTransaction: models `server/models/Transaction.js` with its
  owner path made a parameter. The schema the routes load,
  `server/backend/models/Transaction.js`, is not part of this model, and
  its other paths are assumed to match.
- Ledger.Deposit: whether the record is stored is stated for either owner
  path, not decided, because the loaded schema is not part of this model.
- Ledger.Withdraw: as for Ledger.Deposit.
- Auth.NormalizeEmail: `toLowerCase` is modelled for the ASCII letters
  only. Other scripts' case mappings are not.
- JsText.ToLower: ASCII only, as above.
- JsText.JsRem: only a positive divisor, the only kind the source uses.
- Settlement.Multiplier: `multiplicadores[tipo] || 1` also finds inherited
  object keys such as `constructor`. The model treats every string outside
  the fifteen as missing from the table. The difference cannot be observed:
  `verificarApuesta` returns false for such a type (`game.js:157-158`), so
  the multiplier is never used (`game.js:56-61`), and the enum keeps such a
  type from being stored.
- Client.DisplayName: `nombres[tipo] || tipo` would show the text of a
  built-in function for a key such as `constructor`; the model shows the
  string itself for every name outside the fifteen.
- The initial history load (`ruleta.js:296-347`), which shows the server's
  list without truncating it to five.
- Wheel animation, angles, the index under the wheel marker and
  randomness. The winning number is a parameter.
- `juego.js`, the profile, password-recovery and edit-profile routes, and
  logout.

## Findings

| source | as written | input that shows it | evidently intended | confidence | as-written member | corrected member |
|---|---|---|---|---|---|---|
| server/backend/routes/game.js:45-82 | `/resultado-apuesta` never checks that the bet is still pending, and settles and credits it on every request | a pleno of 100 on 17 sent twice with 17: the balance goes 0 → 3600 → 7200 | a settled bet is refused and credited once | high, not executed | Game.DoubleCreditExample | Game.SettlesOnce |
| server/backend/routes/game.js:49-60 | the balance credited is the caller's (`res.locals.user.id`), whatever user owns the bet | user 1 settles user 2's winning pleno of 100 on 17 and gains 3600 | only the bet's owner can settle it | high, not executed | Game.ForeignBetExample | Game.ResolvePending |
| server/backend/routes/game.js:16-22 | `/apuesta` checks only `saldo < monto`, so a negative stake passes and raises the balance | stake -100 from balance 0: the balance becomes 100, and a win on 17 then leaves -3500 | the stake must be positive | high, not executed | Game.NegativeStakeExample | Game.RoundNet |
| server/backend/routes/game.js:20-31 | the debited balance is saved before the bet document is validated | type `ruleta` with stake 50 from balance 100: the balance is saved as 50 and the answer is a 500 with no bet | validate the bet before debiting | high, not executed | Game.UnknownTypeKeepsDebit | Game.PlaceChecked |
| server/backend/routes/transactions.js:37-43 | the record is created with `user_id`; if the schema the routes load is the one of `server/models/Transaction.js`, that is not a path of it and the required `user` is missing | any deposit of 100 against that schema: the balance rises by 100, the record fails validation, and the user sees the 500 message | the record names its owner under the schema's path and is stored | low, not executed | Ledger.RecordDependsOnSchema | Ledger.RunKeepsLedger |
