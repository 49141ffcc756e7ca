# tinyCRM, modelled and proved in Dafny

tinyCRM is a small CRM: a Python backend on PostgreSQL and a TypeScript client. This project models
the parts of it in which something has to hold over many steps, many requests or all inputs, and
proves that it does. `dafny verify dfyconfig.toml` checks everything.

What each group of files is about:

- **vCards**: escaping and splitting (`VcardText`), folding to 75 octets and unfolding (`VcardFold`, `VcardSurvival`,
  `VcardLines`), the printer and the parser (`VcardCard`), their round trip over whole streams of contacts
  (`VcardRoundTrip`, `VcardReading`, `VcardStream`), the cards and lines that other programs write (`VcardForeign`,
  `VcardUnfolding`), what a carriage return does (`VcardReturns`, `VcardBroken`, `VcardTame`, `VcardHarmless`), and
  the importer that recognises and files what it reads (`VcardImport`, `VcardFiling`, `VcardReimport`).
- **Sessions** (`Sessions`, `SessionRuns`, `RefreshProtocol`): rotating refresh tokens. The second file
  interleaves the statements of the server; the third lets any number of browser tabs talk to it
  against a clock.
- **Throttles** (`Throttle`, `ThrottleLog`, `RateLimit`): a backoff row per account that a sweep may delete unseen,
  and a sliding window per address that agrees with the log of all failures.
- **Rows with a history** (`Recurrence`, `TaskSeries`, `DealStages`, `Outcomes`, `History`, `Mfa`):
  state machines in which every request is a load and a later conditional write, and the row has to
  agree with its log, its successors or its codes in every interleaving. `TaskWrites`, `DealWrites`, `RecordWrites` and
  `MfaRequests` say column by column what a request writes, in a run or undisturbed.
- **Leads** (`LeadImport`, `LeadRuns`): one loop over two alias maps that does nothing the second time, and which
  organization each row is for.
- **`LikePattern`**: escaping for LIKE, against a semantics of LIKE.
- `Options`, `Fields`, `Text`, `Clock`, `Calendar` hold what several of these share.

How the source is rendered: a loop or an object that is changed in place is a method or a class, and
its contract equates the result, or the whole new state, with a function of the old; the lemmas are
about that function and about runs of it. A database row is a map entry; an UPDATE conditional on a
version or a column is one atomic step; what a request reads earlier, and the locks it holds
meanwhile, are part of the state. Clocks and fresh identifiers are arguments or counters. MACs,
seals and generated codes are injective constructors or function parameters.

Where a promise of the source turned out not to hold of every input:

- "Importing what was just exported changes nothing" (backend/app/importers/vcard.py:521-526). The printer escapes
  line feeds and CR LF pairs, but not a carriage return on its own, so what follows one in a text is a line of its own
  to the parser. In notes, title, organization, phone, website, address or tags that is harmless as long as neither a
  colon nor an equals sign follows it in the value; otherwise a text can put a property into the file, for instance
  another name, and the contact is imported a second time under it. Inside a name or an address a lone carriage return
  cuts the text off, and a CR LF pair is read back as a line feed, so that the contact is not recognised.
  `VcardReimport` has the promise, the conditions and families of failures.
- A failed refresh "leaves them for the next try" (frontend-next/src/api/client.ts:22-24) unless it ends in a 401.
  So `renew` does, but a request that was refused and could not be renewed drops the tokens afterwards, whatever the
  failure was and whoever stored them (lines 87-90 of the same file). `RefreshProtocol.RefusalDropsThePair` states it.
- A code is accepted "for an account with MFA on" (backend/app/auth/mfa.py:152). The UPDATE tests neither that nor the
  secret, so a request that read the account before a disable still claims its step afterwards, even in the next span
  under another secret. `Mfa` states when an accepted step is of the secret in force.
- The wait that a blocked address is told can be too short when more failures than the maximum came at once
  (`RateLimit`), and the answer of clearing a lock tells whether a stale row has been swept (`Throttle`).

## Model

| member | source | states |
|---|---|---|
| LikePattern.EscapeIsPerCharacter | backend/app/db.py:50-57 | the three replacements, one after the other, equal one map over the characters, so none escapes what another has written |
| LikePattern.EscapedMatchesExactlyOccurrences | backend/app/db.py:50-62 | for all texts, the pattern between two percent signs matches exactly the strings that contain the text, and never ends in a dangling escape |
| LikePattern.ContainsIsOccurrence | backend/app/db.py:60-62 | a case-insensitive match is containment after folding, for every folding by characters, longer ones included, that keeps the special characters and makes none |
| LikePattern.UnescapedMatchesExactly | backend/app/db.py:50-57 | without the escaping the match is containment for exactly those texts that hold no special character |
| VcardText.EscapeIsPerCharacter | backend/app/importers/vcard.py:114-122 | the five replacements escape every character on its own, a CR LF pair counting as one line break |
| VcardText.Unescape | backend/app/importers/vcard.py:125-143 | the loop with its look-ahead computes the recursive unescaping, dangling backslash included |
| VcardText.PairsAreRead | backend/app/importers/vcard.py:125-143 | in any text, a backslash with n or N is a line feed, with a comma, a semicolon or a backslash that character, and otherwise stays as it is |
| VcardText.UnescapeUndoesEscape | backend/app/importers/vcard.py:114-143 | unescaping an escaped text gives the text with its CR LF pairs as line breaks, for every text |
| VcardText.EscapeRoundTripExactly | backend/app/importers/vcard.py:114-143 | it gives the text itself exactly if that holds no CR LF pair |
| VcardText.SplitUnescaped | backend/app/importers/vcard.py:277-296 | the loop cuts at the unescaped delimiters and nowhere else |
| VcardText.SplitUndoesJoin | backend/app/importers/vcard.py:277-296 | splitting undoes joining escaped components, whatever delimiters and backslashes they hold |
| VcardFold.FoldLine | backend/app/importers/vcard.py:146-161 | the loop writes the folded lines, joined with CR LF, each continuation behind a blank |
| VcardFold.FoldedFits | backend/app/importers/vcard.py:146-161 | no physical line is longer than 75 octets of UTF-8 (section 3.2 of RFC 6350) |
| VcardFold.FoldFromIsGreedy | backend/app/importers/vcard.py:146-161 | every line but the last is full: one more character would not have fitted |
| VcardFold.UnfoldLines | backend/app/importers/vcard.py:253-274 | the loop joins continuations and soft breaks and drops blank lines as the recursive reading does |
| VcardSurvival.FoldedLineReadsBackExactly | backend/app/importers/vcard.py:146-161 | a logical line is restored by unfolding exactly if no fold falls right after an equals sign of a quoted-printable line |
| VcardSurvival.PlainLineReadsBack | backend/app/importers/vcard.py:253-274 | a line with a short header that is not quoted-printable is always restored, folds inside escape pairs and before blanks included |
| VcardSurvival.QuotedPrintableLineIsSpoilt | backend/app/importers/vcard.py:249-274 | the lines that are not restored: every quoted-printable one with an equals sign as its 75th octet comes back different |
| VcardSurvival.SuchHeadersExist | backend/app/importers/vcard.py:249-250 | that family holds every header with the mark in it, in any case and at any place |
| VcardLines.PhysicalUnfolds | backend/app/importers/vcard.py:253-274 | a whole file of readable lines is restored line by line, none joined to another |
| VcardLines.NoCarriageReturnIsRead | backend/app/importers/vcard.py:253-274 | no logical line holds a carriage return, whatever the text |
| VcardUnfolding.ContinuationIsJoined | backend/app/importers/vcard.py:262-268 | a line that begins with a blank or a tab goes on with the line before it, without that character |
| VcardUnfolding.SoftBreakIsRejoined | backend/app/importers/vcard.py:262-274 | a quoted-printable value goes on in place of its trailing equals sign with the first character of the next line |
| VcardUnfolding.NextLineIsNew | backend/app/importers/vcard.py:262-274 | any other two lines stay two |
| VcardUnfolding.EmptyLineIsSkipped | backend/app/importers/vcard.py:267-270 | with an empty line between them or none |
| VcardReturns.LoneReturnEndsTheLine | backend/app/importers/vcard.py:253-263 | a lone carriage return anywhere in a file is read like a CR LF |
| VcardReturns.ParsedHoldsNoCr | backend/app/importers/vcard.py:371-501 | no text of a card that is read holds a carriage return, if decoding brings none in |
| VcardCard.ParseVcards | backend/app/importers/vcard.py:371-501 | the loop over lines with its open card computes the fold of one line at a time over the unfolded text; what each property makes of a card is said below, and for other programs' cards by `VcardForeign` |
| VcardReading.PartsAreRead | backend/app/importers/vcard.py:324-326 | a joined, escaped and trimmed value splits into exactly its trimmed components |
| VcardReading.TakeCard | backend/app/importers/vcard.py:371-400 | what stands between the two marks of a card is read into one card, and what follows is left alone |
| VcardStream.DateIsRead | backend/app/importers/vcard.py:371-501 | every written birthday is read as the same date |
| VcardStream.CountryIsRead | backend/app/importers/vcard.py:334-346 | every two-letter country comes back, except UK, which becomes GB |
| VcardStream.MailsArePicked | backend/app/importers/vcard.py:349-353 | the two addresses come back in order, the same one twice once, and a lone second one first |
| VcardStream.PhonesArePicked | backend/app/importers/vcard.py:356-368 | both phone slots come back exactly, also when only the second is filled |
| VcardStream.CardIsTaken | backend/app/importers/vcard.py:164-222 | the properties of one contact are read into its trimmed self |
| VcardStream.WholeStreamRoundTrip | backend/app/importers/vcard.py:225-227 | parsing the printed stream of any contacts gives one card per contact, in order, every field the trimmed original and a blank one absent |
| VcardStream.UnchangedExactly | backend/app/importers/vcard.py:164-227 | of the contacts with trimmed fields exactly those come back unchanged that hold no carriage return, are not in the UK and whose second address stands beside a different first |
| VcardStream.WholeStreamExactly | backend/app/importers/vcard.py:225-227 | a stream of contacts whose lone carriage returns stand inside their texts comes back as its trimmed self exactly if there are none |
| VcardForeign.NamedByItsParts | backend/app/importers/vcard.py:423-430 | a card without a filled FN is named by the given name, a blank and the family name of its N, or by the one of them that there is, wherever the N stands |
| VcardForeign.FullNameWins | backend/app/importers/vcard.py:395-430 | the last FN, if it is filled, is the name, whatever N stands before or behind it |
| VcardForeign.LastOneDecides | backend/app/importers/vcard.py:432-501 | of several titles, websites, notes, organizations or birthdays the last decides, a blank one only of the first two |
| VcardForeign.BlankChangesNothing | backend/app/importers/vcard.py:432-501 | a blank organization, address, number or note, a birthday that is no date and an unknown property change nothing in any card |
| VcardForeign.TagsAreGathered | backend/app/importers/vcard.py:498-499 | the tags of several properties are gathered in order, without the blank ones |
| VcardForeign.AddressesAndNumbersAreGathered | backend/app/importers/vcard.py:441-450 | addresses and numbers are picked from all that the card gives, in order, preferred and mobile ones as their parameters say |
| VcardForeign.MailsArePickedInOrder | backend/app/importers/vcard.py:349-353 | of any addresses the first preferred one is primary, else the first, and the next different one is secondary |
| VcardForeign.PhonesArePickedInOrder | backend/app/importers/vcard.py:356-368 | of any numbers the first preferred one is primary, else the first that is no mobile's, and the first other one is secondary; of mobiles alone the first is secondary |
| VcardForeign.OneAddressIsTaken | backend/app/importers/vcard.py:455-479 | the postal address is that of one property, the first preferred one that says something or else the first, taken whole, with a country that has no code on the city line |
| VcardForeign.CountriesAreCodes | backend/app/importers/vcard.py:334-346 | what is stored of a country is two capitals, whatever the card says |
| VcardForeign.ParseDateExactly | backend/app/importers/vcard.py:481-491 | a birthday is read exactly if eight digits are left without the dashes and are the year, month and day of a date |
| VcardForeign.CharsetExactly | backend/app/importers/vcard.py:299-310 | a value is decoded exactly if a parameter says quoted-printable, by the first charset that is named, else as UTF-8 |
| VcardForeign.CaseMakesNoDifference | backend/app/importers/vcard.py:412-418 | upper and lower case make no difference in a header or in the marks of a card |
| VcardForeign.GroupMakesNoDifference | backend/app/importers/vcard.py:412-418 | a group in front of a name makes none either |
| VcardForeign.PrintedNameIsSplit | backend/app/importers/vcard.py:172-178 | in print the first word of a name is the given name and the rest the family name, and a single word is the family name |
| VcardBroken.NotesRename | backend/app/importers/vcard.py:114-122 | any contact whose notes hold a carriage return, "FN:" and a text comes back under that text as its name |
| VcardTame.ReadProperty | backend/app/importers/vcard.py:253-274 | a property with harmless carriage returns, however it is folded, keeps its header and its line, and what comes loose of it holds no colon |
| VcardHarmless.HarmlessStreamIsRecognised | backend/app/importers/vcard.py:371-501 | an export with harmless carriage returns is read as one card per contact, in order, each with its contact's name and addresses |
| VcardHarmless.PrintableIsImportable | backend/app/importers/vcard.py:164-222 | contacts without a lone carriage return are among those |
| VcardImport.Crm.ImportVcards | backend/app/importers/vcard.py:516-617 | the import leaves contacts, organizations, known identities and counters as the fold over the cards says, of which `VcardFiling` says what it is in terms of the stored rows alone |
| VcardImport.CardsAddUp | backend/app/importers/vcard.py:516-617 | cards are imported, skipped or nameless; contacts and organizations grow by what is counted |
| VcardImport.SecondImportAddsNothing | backend/app/importers/vcard.py:516-617 | for every text a second import adds no contact and no organization |
| VcardImport.ImportedAreDistinct | backend/app/importers/vcard.py:504-513 | no imported contact shares an identity with any other, old or new |
| VcardImport.ImportsNothingExactly | backend/app/importers/vcard.py:561-570 | for every file, an import adds a contact exactly if a named card of it shares no identity with the stored contacts |
| VcardFiling.RecognisedExactly | backend/app/importers/vcard.py:504-513 | two cards are taken for one contact exactly if their names agree without regard to case and they share an address, or have none on either side |
| VcardFiling.ImportedExactly | backend/app/importers/vcard.py:559-617 | the contacts afterwards are those before and, in order, one for every card that has a name and is neither a stored contact nor an earlier card that was taken; it is stored as it was read with every tag once, under the last live organization of its name, or under none if it has none |
| VcardFiling.MadeOnlyWhenNeeded | backend/app/importers/vcard.py:572-588 | no organization is lost or changed, and each new one is live, of a name that no live one had, and has a contact filed under it |
| VcardFiling.NamelessAreListed | backend/app/importers/vcard.py:561-564 | the errors number exactly the nameless cards, from one on |
| VcardFiling.DistinctExactly | backend/app/importers/vcard.py:349-353 | dropping repetitions keeps every element once, at its first place |
| VcardReimport.ExportThenImportExactly | backend/app/importers/vcard.py:516-617 | an import of an export adds nothing exactly if each contact as it is read back is known; then rows and counters are as they should be |
| VcardReimport.ExportThenImportAddsNothing | backend/app/importers/vcard.py:516-617 | importing the export of stored contacts imports none of them and changes nothing, if names and addresses are stored as they are read |
| VcardReimport.PlainExportAddsNothing | backend/app/importers/vcard.py:516-617 | and so if names and addresses hold no carriage return, and other texts only harmless ones |
| VcardReimport.ReadsAsStoredExactly | backend/app/importers/vcard.py:114-122 | a text is stored as it is read exactly if it holds no CR LF pair once it is trimmed |
| VcardReimport.ImportedAgainExactly | backend/app/importers/vcard.py:504-513 | any contact stored alone is imported a second time exactly if a CR LF pair stands inside its name or inside each of its addresses |
| VcardReimport.NotesAddAContactExactly | backend/app/importers/vcard.py:216-217 | notes with a carriage return and a name behind it import a contact exactly if nobody is known by that name and the addresses |
| VcardReimport.WordsAddAStranger | backend/app/importers/vcard.py:216-217 | instances: any two different words as the name and behind "FN:" in the notes give one imported contact |
| Sessions.SessionTable.OpenSession | backend/app/auth/sessions.py:161-177 | a login adds a row of generation zero, open to its user for ninety days, and hands out its token; of the other rows exactly the expired ones of that user go |
| Sessions.SessionTable.Update | backend/app/auth/sessions.py:188-201 | the conditional UPDATE moves a live row of that generation on by one, and no other |
| Sessions.SessionTable.RotateSession | backend/app/auth/sessions.py:180-226 | a rotation without interruption leaves the rows and gives the answer that the three statements say |
| Sessions.SessionTable.CloseSession | backend/app/auth/sessions.py:229-235 | with any genuine token its session is gone and open to nobody, and every other access token is as good as before; any other token changes nothing |
| Sessions.SessionTable.CloseSessions | backend/app/auth/sessions.py:238-244 | of the access tokens that are good, those of other users and of the session to keep stay good, and no other |
| SessionRuns.EachGenerationRotatesOnce | backend/app/auth/sessions.py:180-226 | in every interleaving of the statements each generation is rotated at most once, in order, and a good answer carries the next one |
| SessionRuns.StaleTokenEndsTheSession | backend/app/auth/sessions.py:204-226 | once a token from before the grace, or two generations old, has been dealt with, its session is gone, whatever ran in between |
| SessionRuns.DeletedStaysDeleted | backend/app/auth/sessions.py:180-226 | no later event brings a deleted session back or accepts a token that names it |
| SessionRuns.SignOutIsForGood | backend/app/auth/sessions.py:229-235 | in every run, once a session was signed out with any genuine token, nobody has it open again and no rotation or answer names it, whatever was under way |
| SessionRuns.SignOutAllIsForGood | backend/app/auth/sessions.py:238-244 | and so for every session that is signed out with all others |
| SessionRuns.UninterruptedRefresh | backend/app/auth/sessions.py:180-226 | the statements of a refresh with nothing in between leave the rows and give the answer of a whole rotation |
| SessionRuns.CurrentTokenIsRenewed | backend/app/auth/sessions.py:188-204 | a current token is answered with the next one, and its session is open to its user alone for ninety more days |
| SessionRuns.GraceExactly | backend/app/auth/sessions.py:71 | the token just replaced is answered with the same successor up to 60 seconds, to the microsecond, and ends the session after |
| SessionRuns.TwoTabsGetTheSameSuccessor | backend/app/auth/sessions.py:204-226 | two presentations of one token within the grace get one and the same successor |
| SessionRuns.ForgedTokenDoesNothing | backend/app/auth/sessions.py:110-120 | a token without a genuine MAC changes nothing and gets nothing |
| RefreshProtocol.Tab.OnRequest | frontend-next/src/api/client.ts:61-71 | a request goes out with the stored token, waits for the one refresh under way, or starts it, as the timed runs have it |
| RefreshProtocol.Tab.OnRefreshed | frontend-next/src/api/client.ts:64-70 | after the wait it goes out with the token that is stored by then, and a copy is kept |
| RefreshProtocol.Tab.Renewed | frontend-next/src/api/client.ts:25-40 | the answer is stored; a 401 clears the tokens only if nobody has stored a newer pair, and any other failure leaves them |
| RefreshProtocol.Tab.OnResponse | frontend-next/src/api/client.ts:72-82 | a refused request is sent again after a renewal, by this tab or meanwhile by another |
| RefreshProtocol.Tab.OnRetried | frontend-next/src/api/client.ts:83-91 | unless the second try is accepted, whatever pair is stored by then is dropped |
| RefreshProtocol.RefusalDropsThePair | frontend-next/src/api/client.ts:72-91 | after a refused request whose renewal failed the tokens are gone, and when exactly the renewal alone would have kept them |
| RefreshProtocol.TabsNeverLoseTheSession | frontend-next/src/api/client.ts:25-95 | with any number of tabs on one stored pair, agreeing clocks and exchanges of at most 30 seconds, the session is never revoked, no request is refused, and the tokens go only after 90 idle days |
| RefreshProtocol.RefreshRenewsThePair | frontend-next/src/api/client.ts:25-71 | a refresh of the current pair that nothing disturbs stores the next one, and the request that waited goes out with its access token |
| RefreshProtocol.CopyIsWithinGrace | backend/app/auth/sessions.py:204-226 | a stale copy always arrives within its grace, so the later read never finds a reuse |
| RefreshProtocol.RotationIsAlone | backend/app/auth/sessions.py:188-201 | when a copy of the present generation is under way, every other copy and the stored pair are of it too |
| RefreshProtocol.IdleIsNinetyDays | backend/app/config.py:51-52 | that a session is given up as idle means that its last rotation is 90 days back |
| RefreshProtocol.IdleTooLongSignsOut | backend/app/config.py:51-52 | and then a tab does sign out: the promise needs that exception |
| Throttle.AuthThrottle.ClaimLoginAttempt | backend/app/auth/throttle.py:94-157 | an attempt is refused with the seconds that remain, or counted, locked for and swept after |
| Throttle.AuthThrottle.ClaimResetMail | backend/app/auth/throttle.py:167-185 | a mail goes out if none went out within the cooldown, which starts again |
| Throttle.AuthThrottle.ClearLogin | backend/app/auth/throttle.py:160-164 | the account's row goes, and the answer says whether there was one |
| Throttle.LockIsCappedDoubling | backend/app/auth/throttle.py:84-91 | limiting the shift by the bit length of the cap never changes the lock: it is the doubling, capped |
| Throttle.WaitingLiftsTheLock | backend/app/auth/throttle.py:94-157 | waiting the seconds that are named is enough, and one second less is not |
| Throttle.SweepIsInvisible | backend/app/auth/throttle.py:139-157 | on a clock that never goes back, every attempt and mail gets the same answer and the same seconds with the sweep and without |
| Throttle.LocksAgree | backend/app/auth/throttle.py:139-157 | and the same rows are locked at every later time |
| Throttle.ClearCannotTell | backend/app/auth/throttle.py:160-164 | the answer of clearing is the same too, unless the row that it clears has run out |
| Throttle.ClearCanTellExactly | backend/app/auth/throttle.py:139-164 | in every run an admitted attempt on another account can make it differ exactly if there is such a row and it has run out |
| Throttle.BackoffBound | backend/app/auth/throttle.py:124-138 | the attempts admitted within less than the decay window, without a clear, are as far apart as the sum of their locks |
| Throttle.AtOnceExactly | backend/app/auth/throttle.py:124-138 | of any number of simultaneous attempts on a clean account exactly one more than the free ones get through, or all if the cap is zero |
| ThrottleLog.LockDoubles | backend/app/auth/throttle.py:84-91 | the first failure too many locks for two seconds, and each one more for twice as long, up to the cap |
| ThrottleLog.RefusedExactly | backend/app/auth/throttle.py:94-157 | in every run, whatever is swept, an attempt is refused exactly while the lock lasts that belongs to the last one let through and to the failures in a row by then, with the seconds that are left, rounded up |
| ThrottleLog.MailedExactly | backend/app/auth/throttle.py:167-185 | in every run, whatever is swept, a mail is sent exactly if none was sent to the address within the cooldown, or that was cleared since |
| RateLimit.Prune | backend/app/ratelimit.py:69-71 | the loop drops the front of the queue that is too old |
| RateLimit.ByAge | backend/app/ratelimit.py:89-92 | every address once, the least recently active first |
| RateLimit.EvictionKeepsMostRecent | backend/app/ratelimit.py:87-92 | deleting the front of that list leaves 10 000 addresses, unchanged, none less recently active than one that went |
| RateLimit.PruningKeepsRecent | backend/app/ratelimit.py:69-71 | pruning loses nothing that this cutoff or any later one asks for |
| RateLimit.PrunedIsRecent | backend/app/ratelimit.py:69-71 | on a queue in order, pruning leaves exactly what is younger than the cutoff |
| RateLimit.FewRecentExactly | backend/app/ratelimit.py:126-139 | fewer than the maximum are recent exactly if the one that many places from the end has aged out |
| RateLimit.RecentExactly | backend/app/ratelimit.py:69-71 | the recent timestamps of an address are as many as the log has failures of it since the cutoff, and the first is the oldest |
| RateLimit.WaitingLiftsTheBlockExactly | backend/app/ratelimit.py:126-139 | waiting as told lifts the block exactly if that failure has aged out by then, and always if there are exactly as many as the maximum |
| RateLimit.WaitMayBeTooShort | backend/app/ratelimit.py:126-139 | two failures at once where one is the maximum, more than a second apart: an address that comes back as told is refused again |
| RateLimit.RateLimiter.Sweep | backend/app/ratelimit.py:74-92 | at most once a minute; what has aged out goes, and the most recently active stay under the cap |
| RateLimit.RateLimiter.RecordFailedLogin | backend/app/ratelimit.py:95-100 | the failure is last in its swept and pruned queue, and the queues still agree with the log |
| RateLimit.RateLimiter.RetryAfterSeconds | backend/app/ratelimit.py:126-139 | until an eviction, an address is refused exactly if the log holds the maximum of failures within the window, whatever was pruned or swept before; and when a maximum of zero gets no answer |
| Recurrence.AddDaysIsAddition | backend/app/recurrence.py:40-43 | adding days moves exactly that many places along the calendar |
| Recurrence.EarlierExactly | backend/app/recurrence.py:80-81 | the order of dates field by field is the order of their day numbers |
| Recurrence.OrdinalExactly | backend/app/recurrence.py:30-43 | the day numbers are those of the Gregorian calendar, leap years and months counted out |
| Recurrence.BeforeExactly | backend/app/recurrence.py:80-91 | a moment is before another exactly if fewer microseconds lie behind it |
| Recurrence.AdvanceExactly | backend/app/recurrence.py:36-48 | a step is so many days, or so many months onto the same day or the month's last, and out of range exactly past the last day of the calendar |
| Recurrence.NextInstance | backend/app/recurrence.py:57-92 | the next instance is strictly after the due date and the completion, at the same time of day, within the series, one step from the one or the other |
| Recurrence.NoNextInstanceExactly | backend/app/recurrence.py:57-92 | when there is none, and for which of the three reasons |
| Recurrence.EveryInstanceIsADayLater | backend/app/recurrence.py:57-92 | however late the completions, after n of them the due date has moved by at least n days |
| Recurrence.SeriesEnds | backend/app/recurrence.py:90-92 | so a series with an end has no more instances than days |
| Recurrence.MonthlySeriesOnTime | backend/app/recurrence.py:24-33 | n completions in time lead to the month n intervals ahead, on the start day or the shortest month visited |
| Recurrence.LeastDayIsLeast | backend/app/recurrence.py:24-33 | that day is no more than the start day and each visited month's length, and is one of them |
| Recurrence.DailySeriesOnTime | backend/app/recurrence.py:36-43 | a daily or weekly series that is kept up with never leaves its rhythm |
| TaskSeries.SeriesNeverForks | backend/app/routers/tasks.py:74-139 | in every interleaving of create, patch, archive, restore and delete, no task has two successors |
| TaskSeries.SeriesIsAcyclic | backend/app/models/task.py:50-54 | following the parent links never leads back to the same task |
| TaskSeries.SuccessorsAreBornOfCompletions | backend/app/routers/tasks.py:220-270 | a successor comes only with the commit that turns its unarchived parent from open to done; it is open, like it, and due strictly later |
| TaskSeries.SuccessorFollows | backend/app/routers/tasks.py:74-125 | what is built for a completion is the same task, open, due strictly after the one completed and within its series |
| TaskSeries.DoneIsDated | backend/app/routers/tasks.py:248-258 | a task says when it was done exactly while it is done |
| TaskSeries.TaskService.CreateTask | backend/app/routers/tasks.py:203-216 | a usable body is stored without a parent, dated if it is entered as done |
| TaskSeries.TaskService.FlushTask | backend/app/routers/tasks.py:228-259 | a patch, archiving or erasing reaches the row only at the version it loaded; erasing leaves the children without a parent; what it writes is said by `TaskWrites` |
| TaskSeries.TaskService.SpawnNextOccurrence | backend/app/routers/tasks.py:74-118 | a completion settles on a successor if the committed rows hold none and the series goes on |
| TaskWrites.CommitWrites | backend/app/routers/tasks.py:228-259 | in every run a commit writes what its request sent into the row as it is by then, every other column kept and no other row touched: completing dates the task to the moment of its UPDATE, reopening clears the date, anything else keeps it; a patch is of an unarchived task and of the version it names |
| TaskWrites.OnlyItsCommitWrites | backend/app/routers/tasks.py:220-313 | no other event changes a row, but that it loses its parent when that is erased |
| TaskWrites.OnlyArchivedIsErased | backend/app/routers/tasks.py:302-313 | only an archived task is erased, alone, and its successor stays without a parent |
| TaskWrites.RowsStayCoherent | backend/app/schemas/task.py:11-30 | in every run every row, successors included, has a date to repeat from and an end only with a rule and not before that date |
| TaskWrites.CreatedAsSent | backend/app/routers/tasks.py:203-216 | a coherent body is stored as it was sent, dated now if it is entered as done, and any other is refused |
| TaskWrites.FreePatchIsWritten | backend/app/routers/tasks.py:220-266 | an admitted patch that nothing disturbs is written, unless it says nothing new |
| TaskWrites.CompletionSpawns | backend/app/routers/tasks.py:74-139 | completing a task adds its successor exactly if it repeats, has none and the series goes on; if the next date cannot be told nothing is written |
| DealStages.DealRecord.ApplyStage | backend/app/routers/deals.py:158-200 | the row and its log after a move, or after a move that is none |
| DealStages.DealRecord.MergeValueFields | backend/app/routers/deals.py:402-424 | a switch of pricing drops the other shape's fields, and what contradicts itself after the merge is refused |
| DealStages.DealRecord.UpdateDeal | backend/app/routers/deals.py:355-399 | a PATCH is refused and leaves the deal alone, or edits it and moves it under the same rules |
| DealStages.DealRecord.ChangeDealStage | backend/app/routers/deals.py:428-451 | a move is refused for a reason without a loss, or made |
| DealStages.CreationAgrees | backend/app/routers/deals.py:324-351 | a deal entered in any stage agrees with its first event |
| DealStages.PatchKeepsAgreement | backend/app/routers/deals.py:355-399 | a PATCH keeps row and log in agreement and the price in one shape, whatever it sends together |
| DealStages.CrossingOntoThisSide | backend/app/routers/deals.py:151-155 | the last crossing of a log that ends decided led onto the side it ends on |
| DealStages.RowAgreesWithLog | backend/app/routers/deals.py:158-200 | in every interleaving: the log is a chain of real moves to the row's stage, the clock is the last move's, the deal is closed exactly while decided and at its last crossing, the probability settled, a reason only while lost |
| DealWrites.MovedExactly | backend/app/routers/deals.py:158-200 | a move sets stage, reason, probability, closing date, clock and log to exactly this: a reason only for a loss and in its event too, 0 or 100 once decided and else as it was, a new closing date only for a new decision, an event only for a real move |
| DealWrites.ExpectedExactly | backend/app/models/deal.py:65-74 | the expected value is the contract sum, or rate by volume of one unit to the nearest cent |
| DealWrites.CreatedExactly | backend/app/routers/deals.py:324-351 | which bodies are accepted and the row and first event that each gives |
| DealWrites.PatchedExactly | backend/app/routers/deals.py:355-424 | which patches are accepted and the one deal that each gives: columns as sent or as they were, the other pricing dropped on a switch, and the move with the last word |
| DealWrites.StageChangedExactly | backend/app/routers/deals.py:428-451 | which moves are accepted, and that they change nothing else |
| DealWrites.CommitWrites | backend/app/routers/deals.py:355-451 | in every run a commit makes of the row as it is by then exactly what its request is for, and an archived deal is only restored or erased |
| DealWrites.FreeRequestIsWritten | backend/app/routers/deals.py:355-451 | a request for a change that is allowed is written if nothing disturbs it |
| Outcomes.RowsAreExact | backend/app/metrics.py:395-411 | the row of a side and currency has the number, the sum and the open-ended of exactly its qualifying deals |
| Outcomes.EveryGroupHasOneRow | backend/app/metrics.py:395-411 | no side and currency has two rows |
| Outcomes.WonAndLostAddUp | backend/app/metrics.py:413-437 | won and lost counts together are the number of qualifying deals, each once |
| Outcomes.RowsCombine | backend/app/metrics.py:395-411 | the row of a group over two lists of deals is put together from its rows over each: numbers and known amounts add up |
| Outcomes.RowOfOne | backend/app/metrics.py:383-411 | and of one deal alone it is its expected value if it is live, decided and was decided in the period |
| Outcomes.QualifiesExactly | backend/app/metrics.py:383-411 | a deal counts exactly if it is live, decided now, and went onto a side in the period other than by dropping a draft |
| Outcomes.PeriodsMeet | backend/app/metrics.py:383-394 | a deal counts in a period exactly if it counts in one of two that meet in it, and no moment is in both |
| Outcomes.CrossingIsDecision | backend/app/metrics.py:383-394 | a crossing onto a side is a decision exactly unless it drops a draft |
| Outcomes.ClosedInThePeriodExactly | backend/app/metrics.py:383-411 | a live decided deal closed in the period is counted exactly if its last crossing did not drop a draft, or an earlier decision lies in the period |
| Outcomes.DroppedDraftIsNotCounted | backend/app/metrics.py:388-391 | the exception is real: a draft that is dropped is closed and not counted |
| History.DiffExactly | backend/app/audit.py:204-210 | a diff names exactly the fields that differ, leads from either side to the other, and is empty only between equals |
| History.HistoryTellsEverything | backend/app/audit.py:213-251 | in every interleaving of patch, archive, restore and domain fill: version is one more than the events, they replay to the row and undo to the created one, and each is true of the row it found |
| History.LastEntryWins | backend/app/audit.py:204-227 | a column holds what the last entry that names it says, so no committed change is lost |
| History.EntriesAreKept | backend/app/audit.py:230-251 | entries are only ever added while the record is there |
| History.VersionNamesTheRow | backend/app/audit.py:56-73 | a version number names one content and one history, whenever it is seen |
| History.NamedVersionDecides | backend/app/audit.py:141-156 | a PATCH naming a version succeeds exactly if it changes nothing, or nothing has been recorded since and the name stays; then exactly its difference is recorded, otherwise nothing is written |
| History.EveryWriteIsRecorded | backend/app/archive.py:87-99 | a commit writes nothing, or moves the version by one and adds one entry that is its difference |
| History.Organization.RecordUpdate | backend/app/audit.py:213-227 | the loop collects the difference since the snapshot, and an empty one adds no entry |
| History.Organization.Update | backend/app/routers/organizations.py:132-149 | every field that was sent is set, the others are left, and what changed is recorded |
| History.Organization.Archive | backend/app/archive.py:87-99 | archiving again keeps the first time and records nothing |
| History.Organization.Fill | backend/app/importers/lead_generation.py:195-201 | the importer's fill is an edit with its entry |
| RecordWrites.CommitWrites | backend/app/audit.py:204-251 | in every run a commit that changes the record makes of it, column by column, what its request is for and adds the one entry that says so: a fill sets the domain of a live record without one and nothing else |
| RecordWrites.FreeRequestIsWritten | backend/app/routers/organizations.py:132-149 | a request for a change that is allowed is written if nothing disturbs it |
| LeadImport.LeadImporter.BuildIndex | backend/app/importers/lead_generation.py:132-134 | of the organizations with one key the last live one wins, else the last archived |
| LeadImport.LeadImporter.ImportLeads | backend/app/importers/lead_generation.py:145-251 | the loop leaves rows, maps and counters as the fold says, of which `LeadRuns` says what it leaves, or everything as it was if a row is broken |
| LeadImport.RowsAddUp | backend/app/importers/lead_generation.py:145-233 | every named row is imported or skipped, and every import adds one deal |
| LeadImport.NewDealsAreDeserved | backend/app/importers/lead_generation.py:208-233 | a new deal goes to a live organization that had none, and none gets two |
| LeadImport.FoundBefore | backend/app/importers/lead_generation.py:128-134 | what a key finds in a later index, if it was stored before, is what the key found before |
| LeadImport.DomainStillFinds | backend/app/importers/lead_generation.py:168-206 | a domain that led a row to an organization leads the next run to one that is also archived or has a deal |
| LeadRuns.IndexExactly | backend/app/importers/lead_generation.py:128-134 | before the first row a name or domain is found exactly if an organization has it, and leads to the last live one, or the last archived one if none is live |
| LeadRuns.CreatedAsRead | backend/app/importers/lead_generation.py:177-194 | every organization that a run adds is the work of one row that led nowhere, with its name and its domain, live, and with a deal |
| LeadRuns.FirstDomainIsKept | backend/app/importers/lead_generation.py:195-201 | a live organization without a domain gets that of the first row that leads to it with one, and is otherwise left as it is |
| LeadRuns.OthersAreUntouched | backend/app/importers/lead_generation.py:168-206 | one with a domain, or an archived one, is left as it is |
| LeadRuns.SameNameIsSkipped | backend/app/importers/lead_generation.py:203-212 | a row is skipped if an earlier row that was let in has its name, in any case |
| LeadRuns.SameDomainIsSkipped | backend/app/importers/lead_generation.py:168-212 | after a row that created its organization with a domain, a row with that domain creates none, and is skipped unless its name is that of another organization |
| LeadRuns.CountersAreExact | backend/app/importers/lead_generation.py:153-194 | there is one error for each row without a company, and as many organizations more as were created |
| LeadImport.SecondImportAddsNothing | backend/app/importers/lead_generation.py:93-251 | the same file again, the old organizations read in their old order, creates nothing, adds no deal and skips every named row, whatever names and domains the first run aliased |
| Mfa.MatchingStepExactly | backend/app/auth/mfa.py:138-148 | a step is found exactly if the code is that of one of three, and it is the nearest to now of those that it is the code of |
| Mfa.AcceptedStepsRise | backend/app/auth/mfa.py:151-171 | from the confirming code to the next disable every accepted step is past the one before (section 5.2 of RFC 6238) |
| Mfa.AcceptedStepIsRefused | backend/app/auth/mfa.py:151-171 | a step accepted since MFA went on is not accepted again |
| Mfa.EnabledAsConfirmed | backend/app/auth/mfa.py:238-258 | MFA goes on only with the secret that the confirming code was checked against, that code's step used and fresh codes on file, whatever setups ran meanwhile |
| Mfa.CodesAreSpentOnce | backend/app/auth/mfa.py:203-216 | no recovery code is spent twice |
| Mfa.CodesComeFromOneIssue | backend/app/auth/mfa.py:186-200 | the codes on file are of one issue in every interleaving of replacements, setups and disables |
| Mfa.AcceptedCodesAreGenuine | backend/app/auth/mfa.py:151-171 | in every run each accepted step is that of its code under a secret that was this account's |
| Mfa.ClaimIsInForceExactly | backend/app/auth/mfa.py:160-169 | an accepted step is of the secret in force exactly if that has been the account's ever since the code was checked |
| Mfa.SecretStaysWhileOn | backend/app/auth/mfa.py:226-235 | while MFA is on no event but a disable takes the secret away |
| Mfa.LateClaimIsAcceptedWhileOff | backend/app/auth/mfa.py:160-169 | a request that read the account before a disable claims its step after it |
| Mfa.LateClaimJoinsAnotherSecret | backend/app/auth/mfa.py:160-169 | and if MFA was set up anew in between, that step of the old secret joins those accepted under the new one |
| MfaRequests.NormalizeIsPerCharacter | backend/app/auth/mfa.py:130-131 | of a typed code the letters count in lower case and the digits as they are, and nothing else |
| MfaRequests.SetupIsFresh | backend/app/auth/mfa.py:226-235 | a pending secret is one that the account never had, nothing else changes, and with MFA on nothing does |
| MfaRequests.SetUpExactly | backend/app/auth/mfa.py:238-258 | a pending secret with a recent code turns MFA on, uses up that step and leaves exactly ten fresh unused codes; any other code does nothing |
| MfaRequests.ReplacementIsFresh | backend/app/auth/mfa.py:186-200 | a replacement leaves exactly ten codes that were never issued, unused, and nothing else changed |
| MfaRequests.SignInExactly | backend/app/auth/mfa.py:151-171 | a sign-in code is accepted exactly if its step is one of three and past the last one, which it then is |
| MfaRequests.SpendExactly | backend/app/auth/mfa.py:203-216 | a recovery code is good exactly if it is on file and not used, and then it alone is used |
| MfaRequests.DisableExactly | backend/app/auth/mfa.py:261-270 | turning off leaves no secret, no step and no code |
| Mfa.Account.FindStep | backend/app/auth/mfa.py:138-148 | the loop over three steps finds the first that matches |
| Mfa.Account.ClaimTotp | backend/app/auth/mfa.py:160-171 | the step is stored and accepted only past the last one |
| Mfa.Account.ClaimRecoveryCode | backend/app/auth/mfa.py:203-216 | an unused code on file is marked and spent |
| Mfa.Account.Enable | backend/app/auth/mfa.py:245-255 | the row is taken for enabling only if the secret is the one that was loaded and MFA is off |
| Mfa.Account.IssueCodes | backend/app/auth/mfa.py:186-200 | ten fresh codes replace those that were deleted, in the same commit as the enabling |
| Mfa.Account.DisableMfa | backend/app/auth/mfa.py:261-270 | secret, step and codes go together |

## Left out

- Quoted-printable decoding and charsets are a function parameter; printed cards never take that path.
- Unicode tables: upper-casing of the ASCII letters and of a few others is modelled as far as headers need it; case folding of names, `lower` of companies and the folding of ILIKE are function parameters; digits outside ASCII in a birthday or a code are not read.
- VcardReimport.ExportThenImportAddsNothing: excludes a lone carriage return with a colon or an equals sign behind it in the same value; whether such a value lets a property through depends on the whole line, and NotesAddAContactExactly decides it for names in the notes, while ImportsNothingExactly holds of every file.
- VcardStream.WholeStreamRoundTrip: contacts with a lone carriage return in some text are excluded, for which WholeStreamExactly shows it to fail unless the carriage return stands at an end of the text.
- VcardStream.WholeStreamExactly: a lone carriage return among the blanks at an end of a text may or may not be trimmed away with them, and is excluded.
- VcardCard.ParseVcards: a birthday in digits outside ASCII is read by the source.
- VcardForeign: the properties of its cards have one parameter at most, written in capitals; CaseMakesNoDifference and CharsetExactly are about headers with any parameters.
- The MAC and the JWT are injective constructors; the secret is never changed, and a guess of a MAC is an explicit forged value.
- RefreshProtocol: one login of one user; the two writes of `setTokens` are one step, and failed refreshes and retries after a 401 are part of the class Tab but not of the timed runs, in which no exchange is lost and no request is refused.
- SessionRuns: rows of other users expire only when that user logs in; that a request stays under way for 90 days is excluded.
- Throttle: times are whole microseconds; which stale rows a sweep reaches is an argument, since it skips rows that others hold.
- RateLimit: floating-point times are reals.
- Time zones: all moments lie on one UTC line; `DayWindow` and the calendar of `Period` are not modelled, a period is any half-open interval.
- TaskSeries.TaskService.SpawnNextOccurrence: the project link rows that the successor inherits are not modelled, and its other links are part of the content.
- TaskSeries: links, project rows and the fields that no rule reads are one content value; what another record's deletion does to them is not modelled.
- DealStages: one deal with its requests; links to contacts and organizations and the check that they are the user's own.
- Outcomes: the order of the rows and the win rates, which are rounded floating-point quotients.
- History: one organization; its change history read back page by page, and the other eight record types, whose many-to-many links are recorded as lists.
- LeadImport: header names, the CSV reader, the notes and titles of deals, and edits of the same organizations by others while the import runs.
- LeadImport.SecondImportAddsNothing: the second run may still fill in a missing domain, which the contract allows.
- Mfa: mail, password checks, the challenge token and the sessions that are closed when MFA changes; recovery codes are identifiers, so two equal codes in one set are excluded.
- FastAPI routing, Pydantic validation, search, lists, paging, documents, interactions, projects, watches, captures, briefing, mail, Slack, storage and the React client would only add easy members.
