# A verified model of uMailServer's hard parts

This project models the parts of uMailServer whose correctness is hardest to see
from the code, and proves what they are for, for all inputs and over whole runs.

- **DKIM and ARC** (`TagList`, `WhiteSpace`, `DkimBody`, `DkimHeaders`, `SignedFields`, `Dkim`,
  `DkimIntegrity`, `Arc`, `ArcChain`, `ArcSeals`, `ArcTheorem`, `ArcValidator`, `ArcIntegrity`,
  `ArcFailure`). Body and header canonicalization, the tag list parser and printer, signer
  and verifier, and an ARC chain that grows one set per hop. RSA, Ed25519 and SHA-256 are
  functions. What verifies needs one law: a signature verifies under its own key and, like a
  hash, is base64 text (`Sound`). What must fail needs the ideal ones as well: a hash has one
  preimage, and a key accepts nothing but the signatures it made (`DkimIntegrity.Ideal`).
- **SPF** (`Spf`, `SpfText`, `SpfCheck`, `SpfMeaning`, `SpfModifiers`, `SpfChecker`). check_host
  over an arbitrary, possibly cyclic DNS graph whose answers may change from call to call,
  what each mechanism means for the result of a record, and records as published text.
- **Recurrence and free-busy** (`Civil`, `Recurrence`, `RecurrencePeriods`, `RecurrenceMeaning`,
  `RecurrenceExpansion`, `RecurrenceInstances`, `FreeBusy`). What the parts of a rule mean, by
  counting days; RRULE expansion with its skip-ahead and early exit against plain
  enumeration, week years, in-place removal of duplicates, and the merge of busy periods.
- **Calendar objects** (`CalendarData`). The stack machine that checks a stored object
  against the component trees it stands for.
- **Mail filters as Sieve scripts** (`SieveText`, `SieveParser`, `SieveScript`, `SieveRun`,
  `SieveCompiler`, `SieveMeaning`, `SieveTheorem`, `SieveOutcome`). The filter compiler produces text; the
  parser, the Sieve compiler and the interpreter that delivery runs are modelled as well,
  and the main theorem goes from the filters through that text to the delivery actions.
- **LDAP connection pool** (`LdapPool`, `LdapCalls`). Any number of threads, one atomic step
  at a time, and each call on its own.
- **MTA-STS policies** (`MtaSts`, `MtaStsCache`) and **JWT signing keys** (`JwtKeys`,
  `JwtRuns`). State machines whose network, disk and clock are adversaries.
- **Mail rows and quota** (`MailQuota`, `MailHandler`). Content-addressed blobs and the
  counter that charges each of them once.

Code that computes values is a function here; code that changes things step by step is a
method with loops, or a class, proved against such a function. `Text` holds the string
operations of the Go library that the code relies on, `Sequences` what several modules
need of order and distinctness. A Go string or byte slice is a
`string`, letter case is ASCII case, and time is a count of seconds. Each Dafny file holds
the module of its name; `dafny verify dfyconfig.toml` checks them all together.

## Where a property needs a condition

- **Recurrence.** "Every window before year 10000" is not enough for a complete expansion:
  with BYWEEKNO and weeks starting on Wednesday, Thursday or Friday, the first week of
  year 10000 starts in December 9999 and the loop never reaches it
  (`RecurrenceExpansion.MissedIn9999`). When no cap is hit, the exact condition is a window
  that ends by `Horizon` (`RecurrenceExpansion.HorizonIsSharp`). The cap on periods is not
  hit in a short window, whenever the event began, except that the days and weeks skipped
  are counted by a duration of at most 292 years: a daily event asked for some 566 years
  after its start yields nothing (`RecurrenceExpansion.SaturatedMisses`).
- **Free-busy.** The request parser lets a window through whose start is after its end
  (internal/caldav/server.go:820-830), and an event may end before it starts
  (internal/caldav/server.go:693-764). The merged periods run forward, apart and inside
  the window if and only if each clamped occurrence that runs backwards starts within the
  reach of an earlier one. For a window in order that leaves the backwards events
  (`FreeBusy.OrderedWindow`, `FreeBusy.BackwardsPeriod`); in a reversed window it fails as
  soon as anything is busy (`FreeBusy.ReversedWindow`, `FreeBusy.ReversedPeriod`). When
  occurrences start together, the order in which they are sorted can decide
  (`FreeBusy.TiesDecide`); `FreeBusy.AnyOrderIff` says when it does not.
- **Filters.** Not every stored filter is applied. A header name over 65536 characters, a
  forward address whose bare form does not parse again, or a script over 1 MiB makes
  delivery refuse the whole script, so that no filter of the user applies. Over-long
  condition values and long condition lists would too, but the server does not store
  them. More than 256 actions, more than 16 redirects or more than 200000 operations make
  it refuse the run on one message. `SieveMeaning.Fits` and `SieveMeaning.Bearable`
  together are the exact condition.
- **MTA-STS.** The refetch asks DNS for the TXT record a second time, so a policy can be
  replaced under the very id it had (`MtaStsCache.SameIdReplaced`). A replacing policy may
  end sooner than the one it replaces (`MtaStsCache.ShorterReplacement`), so "before its
  max_age" must follow the policy stored last. `MtaStsCache.RunAnswersIff` and
  `MtaStsCache.AnswersUntilIff` are the exact conditions; one day is guaranteed without any.
- **Moving mail.** The server drops repeated ids, but a plain id and a copy-qualified id may
  name the same row. A batch with both moves that row twice and leaves one copy too many
  (`MailHandler.NamedTwice`). Copies are conserved if and only if no row is named twice.
- **Calendar objects.** The root lines must be `BEGIN:VCALENDAR` and `END:VCALENDAR`
  exactly up to letter case, while inner component names are trimmed.

## Model

| member | source | states |
|---|---|---|
| TagList.ParseTagValueListDup | internal/auth/dkim.go:489-547 | the character loop yields the same map and duplicate flag as splitting at semicolons and adding the pairs in order |
| TagList.ParsePrint | internal/auth/dkim.go:489-547 | parsing a printed tag list recovers every pair, no other tag, and no duplicate |
| TagList.ParseAnyPrint | internal/auth/dkim.go:489-547 | of a printed list with tags given twice, parsing reports the repetition and keeps the last value |
| TagList.EmptyB | internal/auth/arc.go:428-438 | both ways of emptying b= (DKIM's expression and ARC's splitter) undo the appending of any signature, and appending is concatenation |
| DkimBody.CanonicalizeBodySimple | internal/auth/dkim.go:619-639 | the in-place suffix loop leaves the body with all trailing CRLFs replaced by one |
| DkimBody.SimpleIdempotent | internal/auth/dkim.go:619-639 | simple body canonicalization is idempotent |
| DkimBody.SimpleMeans | internal/auth/dkim.go:619-639 | one more line end at the end of a body does not change its simple form, and a body without one gets one |
| DkimBody.CanonicalizeBodyRelaxed | internal/auth/dkim.go:653-721 | the byte loop equals the line-based specification: split at LF, drop one CR, collapse and trim white space, drop trailing empty lines, end each line with CRLF |
| DkimBody.RelaxedIdempotent | internal/auth/dkim.go:653-733 | relaxed body canonicalization is idempotent |
| WhiteSpace.LineIs | internal/auth/dkim.go:653-721 | the relaxed form of a body line is its words with one space between them, and one before them if the line starts with white space |
| WhiteSpace.ValueIs | internal/auth/dkim.go:794-812 | the relaxed form of a header value is its words with one space between them |
| DkimHeaders.CanonicalizeHeaders | internal/auth/dkim.go:736-770 | the loop with its map of used counts gives, for the j-th mention of a field, the j-th instance from the bottom, and nothing beyond the last |
| DkimHeaders.PrependUnchangedIff | internal/auth/dkim.go:736-770 | prepending an instance of a field leaves the hash input unchanged if and only if the list mentions it no more often than it occurs |
| DkimHeaders.DkimSignedHeaderList | internal/auth/dkim.go:260-281 | the loop yields the core fields, then the optional ones that are present |
| DkimHeaders.FromListedTwice | internal/auth/dkim.go:260-281 | every list the signer builds mentions From exactly twice |
| DkimHeaders.PrependedFromIsNoticed | internal/auth/dkim.go:270-281 | for a message with one From, any prepended From changes the hash input (section 8.15 of RFC 6376) |
| SignedFields.SameInputIff | internal/auth/dkim.go:736-770 | two messages have the same hash input if and only if every h= entry covers the same canonical field in both, or none in both |
| Dkim.HeaderListRoundTrip | internal/auth/dkim.go:580-589 | an h= list reads back as it was written |
| Dkim.ParseBuilt | internal/auth/dkim.go:364-486 | parsing the header the signer emits recovers every field of the signature |
| Dkim.SameBytes | internal/auth/dkim.go:825-895 | the verifier rebuilds exactly the bytes the signer signed, whatever the signature that was appended |
| Dkim.SignThenVerify | internal/auth/dkim.go:206-361 | for every message, what the signer emits verifies under its published key at any later time |
| DkimIntegrity.PassIff | internal/auth/dkim.go:284-361 | a signature passes if and only if it parses, covers From, is not expired, its body hash is the hash of the body, and the key named in it accepts it over the signed fields and itself |
| DkimIntegrity.OtherVerdicts | internal/auth/dkim.go:284-361 | exactly when the verdict is a permanent or a temporary error |
| DkimIntegrity.Unparsed | internal/auth/dkim.go:364-486 | a header with a required tag missing, a tag twice or another version is no signature; otherwise the fields are those of its tags |
| DkimIntegrity.CanonsMean | internal/auth/dkim.go:364-486 | c= names both canonicalizations, with simple for the body when it names one |
| DkimIntegrity.IdealExists | internal/auth/dkim.go:898-945 | the laws assumed of hashing, signing and verifying can be met together |
| DkimIntegrity.VerifiesIff | internal/auth/dkim.go:206-361 | under ideal cryptography, what the signer emitted passes on a message if and only if its body has the same simple form and its signed fields give the same hash input; on any other message it fails |
| DkimIntegrity.VerifiesFieldByField | internal/auth/dkim.go:206-361 | the same field by field: the same simple body and, for every h= entry, the same canonical field |
| DkimIntegrity.ChangedFieldFails | internal/auth/dkim.go:206-361 | when the lowest instance of a signed field is changed, added or removed, the signature fails |
| DkimIntegrity.PrependedFromFails | internal/auth/dkim.go:270-361 | a From prepended to a signed message makes its signature fail (section 8.15 of RFC 6376) |
| DkimIntegrity.OtherSignatureFails | internal/auth/dkim.go:206-361 | any other signature in the place of the one made fails |
| ArcValidator.GroupARCHeaders | internal/auth/arc.go:375-401 | the loop collects the headers of each instance as the specification does |
| ArcValidator.DetermineNextInstance | internal/auth/arc.go:337-350 | one more than the largest instance present |
| ArcValidator.ArcStructureValid | internal/auth/arc.go:208-236 | the counting loop accepts exactly the lists in which every instance has one header of each kind |
| ArcValidator.SortInstances | internal/auth/arc.go:123-131 | the instance numbers in ascending order, each once |
| ArcValidator.ListSets | internal/auth/arc.go:139-149 | a malformed chain reports every set in order of its instance, none of them checked |
| ArcValidator.CheckSets | internal/auth/arc.go:151-189 | the loop over the sets gives the verdict and the report on each set as specified, including the stop at an unreachable key |
| ArcValidator.Validate | internal/auth/arc.go:109-204 | the validator returns the chain verdict: structure, numbering, each signature, each cv value, and the report on every set |
| ArcChain.OrderIrrelevant | internal/auth/arc.go:354-401 | grouping depends only on the order of headers within each kind, so Go's map order does not matter |
| ArcChain.SealedGroups | internal/auth/arc.go:354-401 | the headers of a message sealed k times group into exactly those k sets |
| ArcChain.SealedNext | internal/auth/arc.go:337-350 | the next instance after k seals is k+1 |
| ArcChain.InstanceOf | internal/auth/arc.go:405-424 | the instance number of a written header is read back |
| ArcSeals.SameAmsInput | internal/auth/arc.go:467-479 | the message-signature bytes of a set do not change when later sets are added |
| ArcSeals.SameSealInput | internal/auth/arc.go:483-495 | the seal bytes of set i depend only on sets 1 to i |
| ArcTheorem.AmsStaysValid | internal/auth/arc.go:498-526 | a message signature stays valid under every number of later seals |
| ArcTheorem.SealStaysValid | internal/auth/arc.go:530-565 | a seal stays valid under every number of later seals |
| ArcTheorem.RunIsMade | internal/auth/arc.go:241-332 | k successive Seal calls add exactly k well-made sets, with cv none first and pass after |
| ArcTheorem.MadeReports | internal/auth/arc.go:151-177 | every set of a properly sealed chain is reported with its message signature and its seal valid |
| ArcTheorem.SealedChainValidates | internal/auth/arc.go:109-204 | after every run of Seal calls the chain validates as pass with its length, domain and selector, and reports one set per hop with both signatures valid (section 5.2 of RFC 8617) |
| ArcTheorem.NextSeal | internal/auth/arc.go:314-332 | up to fifty seals the next one succeeds, and the fifty-first is refused |
| ArcIntegrity.PassIff | internal/auth/arc.go:109-204 | a chain passes if and only if it is well-formed, every seal verifies over the sets up to its own, cv is none and then pass, and the newest message signature verifies over the message |
| ArcIntegrity.FailsOtherwise | internal/auth/arc.go:109-204 | a chain that does not pass fails when every key lookup gets an answer |
| ArcIntegrity.ForgedFails | internal/auth/arc.go:498-565 | a seal or a newest message signature that its key did not make over its bytes keeps the chain from passing |
| ArcIntegrity.SealBytesDetermine | internal/auth/arc.go:483-495 | under one message signature and seal, the seal bytes determine the canonical form of every header of the earlier sets and of the results |
| ArcIntegrity.PassUnchanged | internal/auth/arc.go:109-204 | two messages that pass under the same newest set agree in everything that set vouches for |
| ArcIntegrity.ChangedFails | internal/auth/arc.go:109-204 | after any run of seals, changing the relaxed form of the body, a signed field or a header of an earlier set makes validation fail |
| ArcIntegrity.NotArcIs | internal/auth/arc.go:467-479 | a message signature covers every listed field but the ARC headers |
| ArcFailure.NextCv | internal/auth/arc.go:239-256 | the next seal says none without a chain, and pass exactly when the chain passes |
| ArcFailure.FailStays | internal/auth/arc.go:239-332 | a chain that does not pass does not pass after any further seal either, whatever happens to the body (section 5.1.2 of RFC 8617) |
| SpfChecker.ParseSPF | internal/auth/spf.go:628-645 | the loop yields the terms of all words, ignoring unknown modifiers |
| SpfChecker.SeparateTerms | internal/auth/spf.go:209-260 | the first loop sets modifiers apart and refuses every syntax error before any mechanism is evaluated |
| SpfChecker.LookupSPF | internal/auth/spf.go:147-172 | the record search: exactly one SPF record, several, or none, at the cost of one resolver call |
| SpfChecker.EvaluateHosts | internal/auth/spf.go:518-548 | the mail host loop with its limit of ten and its void lookups, charged one by one |
| SpfChecker.EvaluateMechanism | internal/auth/spf.go:327-381 | each mechanism gives the outcome of the specification and leaves the shared counters as it does |
| SpfChecker.EvaluateMechanisms | internal/auth/spf.go:267-298 | the mechanism loop over the shared counters equals the specification |
| SpfChecker.EvaluateRecord | internal/auth/spf.go:209-323 | evaluate with its recursion through include and redirect equals the specification and terminates |
| SpfCheck.EvalHosts | internal/auth/spf.go:497-548 | at most ten address lookups, no DNS term, and no outcome but permerror leaves a counter over its limit |
| SpfCheck.Evaluate | internal/auth/spf.go:209-323 | for every zone: the counters only grow, the eleventh DNS term is never executed, each executed one costs at most eleven calls, and without permerror both limits hold |
| SpfCheck.Check | internal/auth/spf.go:108-140 | a whole check makes at most 111 resolver calls and counts at most eleven terms, the last unexecuted (section 4.6.4 of RFC 7208) |
| SpfCheck.EvalAppend | internal/auth/spf.go:267-298 | mechanisms are tried from left to right over the same counters, and none after one that decides |
| SpfCheck.AllDecides | internal/auth/spf.go:267-323 | nothing after an all mechanism is looked at, neither a mechanism nor a redirect (section 5.1 of RFC 7208) |
| SpfMeaning.CheckMeans | internal/auth/spf.go:108-172 | a check is none without a record, permerror with several, and otherwise the result of the one record |
| SpfMeaning.LocalMeans | internal/auth/spf.go:327-345 | reached all, ip4 and ip6: a match gives the qualifier, a malformed address permerror, and otherwise the next term decides |
| SpfMeaning.AMeans | internal/auth/spf.go:422-453 | a reached a mechanism gives its qualifier if and only if an address of its name is the client's under the prefix lengths; a void lookup is charged (section 5.3 of RFC 7208) |
| SpfMeaning.MxMeans | internal/auth/spf.go:497-548 | a reached mx mechanism gives what the first deciding mail host decides, and goes on when all of at most ten pass (section 5.4 of RFC 7208) |
| SpfMeaning.DecidedOnce | internal/auth/spf.go:518-548 | at most one mail host decides, in one way |
| SpfMeaning.ExistsMeans | internal/auth/spf.go:551-569 | a reached exists mechanism gives its qualifier if and only if the name has an IPv4 address (section 5.7 of RFC 7208) |
| SpfMeaning.IncludeMeans | internal/auth/spf.go:572-605 | a reached include gives its qualifier if and only if the included record passes, goes on when it fails, softfails or is neutral, and hands errors on; a missing record is permerror (section 5.2 of RFC 7208) |
| SpfMeaning.RedirectMeans | internal/auth/spf.go:298-323 | when no mechanism decides, the result is that of the redirect target over the same counters, or neutral (section 6.1 of RFC 7208) |
| SpfMeaning.EleventhTerm | internal/auth/spf.go:267-298 | the eleventh DNS term is a permerror |
| SpfMeaning.PtrMeans | internal/auth/spf.go:327-381 | ptr counts as a DNS term and never matches |
| SpfMeaning.SeparateIff | internal/auth/spf.go:209-260 | the first pass accepts if and only if every term is proper and there is at most one redirect, and hands on all mechanisms in order |
| SpfMeaning.SyntaxErrorMeans | internal/auth/spf.go:209-260 | a record with a syntax error anywhere is a permerror, and nothing is looked up for it |
| SpfMeaning.VersionEnds | internal/auth/spf.go:147-172 | only v=spf1 followed by a space or the end starts an SPF record |
| SpfText.TermReadsBack | internal/auth/spf.go:648-702 | every printed term reads back with its qualifier, name and value |
| SpfText.RecordReadsBack | internal/auth/spf.go:628-702 | a published record reads back as its terms in order |
| SpfText.PrefixesRead | internal/auth/spf.go:455-476 | host/n//m names the host and both prefix lengths, a bare host single addresses |
| SpfText.IncludeOrFail | internal/auth/spf.go:108-323 | a domain that publishes include:d and -all passes if the included record does, and fails if that fails, softfails or is neutral |
| SpfModifiers.SeparateIs | internal/auth/spf.go:209-260 | the first pass depends on nothing but the mechanisms in order and the redirect targets |
| SpfModifiers.SameFront | internal/auth/spf.go:628-702 | moving modifiers within a record, even a wrong one, does not change what the first pass finds |
| SpfModifiers.EvaluateSame | internal/auth/spf.go:209-323 | in two zones that differ only in where modifiers stand, every evaluation gives the same code, counters and number of calls |
| SpfModifiers.CheckSame | internal/auth/spf.go:108-140 | so does every whole check |
| Civil.WeekYearTiles | internal/caldav/rrule.go:196-204 | week years tile the days: 52 or 53 whole weeks from one start to the next, within three days of the calendar year |
| Civil.Epoch | internal/caldav/rrule.go:191-204 | the day numbers are those of the Gregorian calendar: 1 January 1970 is a Thursday |
| Recurrence.DedupeInPlace | internal/caldav/rrule.go:355-398 | the in-place loop leaves the distinct values in front, reading no overwritten slot |
| Recurrence.DedupeAscends | internal/caldav/rrule.go:355-398 | sorted input without duplicates is strictly ascending and has the same elements |
| Recurrence.PickPositions | internal/caldav/rrule.go:355-398 | BYSETPOS keeps exactly the chosen positions from either end, in ascending order and once each |
| RecurrencePeriods.PeriodCandidates | internal/caldav/rrule.go:355-398 | the loop computes the candidates of the specification: matching days, selected, at or after the base |
| RecurrencePeriods.SelectedIs | internal/caldav/rrule.go:235-398 | the selected days are ascending and are exactly the matching days of the period (filtered by BYSETPOS) |
| RecurrencePeriods.PeriodsDisjoint | internal/caldav/rrule.go:235-288 | the days of period p end before those of period p+1 begin, also for week rules that spill into neighbouring years |
| RecurrencePeriods.CandidatesOrdered | internal/caldav/rrule.go:235-398 | all candidates of a period precede all candidates of every later one |
| RecurrenceMeaning.DayMatchesIff | internal/caldav/rrule.go:300-352 | the test on a day holds if and only if it is what the BY parts mean: as many equal weekdays, or days, of its month or year before or after it as the number says |
| RecurrenceMeaning.PeriodDaysIff | internal/caldav/rrule.go:235-288 | the days of a period are those of the n-th day, week, month or year after the start's, or of the listed weeks of its week year |
| RecurrenceMeaning.EffectiveMeans | internal/caldav/rrule.go:208-232 | filling in the start adds exactly the weekday, day or month that the rule leaves open |
| RecurrenceMeaning.SelectedMeans | internal/caldav/rrule.go:208-398 | a day is selected if and only if it lies in the period, meets every BY part and agrees with what the start implies |
| RecurrenceMeaning.InstancesMean | internal/caldav/rrule.go:355-398 | the instances of a period are the meant days at the start's time of day, from the start on, at one of the BYSETPOS positions counted from either end |
| RecurrenceMeaning.PlainRule | internal/caldav/rrule.go:208-398 | a rule without BY parts repeats every day, on the start's weekday, on its day of the month, or on its month and day |
| RecurrenceExpansion.SkipLosesNothing | internal/caldav/rrule.go:403-426 | nothing wanted lies in a period before the first one visited, for any FREQ and INTERVAL |
| RecurrenceExpansion.SkipIsEnough | internal/caldav/rrule.go:400-426 | skipping ahead stops at most four periods before the window, for any FREQ and INTERVAL and however long ago the base is, as long as a duration can hold the time skipped in days or weeks |
| RecurrenceExpansion.ExitLosesNothing | internal/caldav/rrule.go:430-455 | nothing wanted lies in or after the period at which the loop exits |
| RecurrenceExpansion.ReachesExit | internal/caldav/rrule.go:430-455 | then the loop reaches its exit before the cap on periods in every window shorter than the periods left |
| RecurrenceExpansion.StopLosesNothing | internal/caldav/rrule.go:430-455 | nor after the candidate at which COUNT or UNTIL ends it |
| RecurrenceInstances.InstancesAscend | internal/caldav/rrule.go:355-455 | the instances of all periods in sequence ascend strictly |
| RecurrenceInstances.InWindowIff | internal/caldav/rrule.go:430-455 | an instance is wanted if and only if its number is below COUNT, it is not after UNTIL and it intersects the window |
| RecurrenceExpansion.IntersectsIff | internal/caldav/ical.go:194-200 | an interval intersects a window if and only if they share an instant, or it has no length and lies in the window |
| RecurrenceExpansion.RruleInstances | internal/caldav/rrule.go:430-455 | the result is ascending and holds only wanted instances without a gap before its last, also when a cap ends the loop; it holds all of them when the window ends by the horizon and no cap was hit, which a short window guarantees for the cap on periods |
| RecurrenceExpansion.HorizonIsSharp | internal/caldav/rrule.go:430-455 | past the horizon a wanted instance exists that the loop never returns |
| RecurrenceExpansion.MissedIn9999 | internal/caldav/rrule.go:430-455 | for weeks that start on a Wednesday, Thursday or Friday the window up to the end of year 9999 misses an instance |
| RecurrenceExpansion.SaturatedMisses | internal/caldav/rrule.go:400-426 | a daily event asked for more than 206749 days after its start: no period the loop may look at is wanted or an exit, though the window holds an instance |
| FreeBusy.MergeBusy | internal/caldav/report_extra.go:189-204 | for any occurrences and any window the merge loop covers exactly the instants of the clamped input, and its periods are inside the window, sorted, forward and strictly separated if and only if every clamped occurrence that ends before it starts begins within the reach of an earlier one |
| FreeBusy.ClampMeans | internal/caldav/report_extra.go:189-204 | clamping keeps exactly the instants in the window |
| FreeBusy.OrderedWindow | internal/caldav/report_extra.go:189-204 | in a window that is in order, for occurrences that intersect it, the condition concerns only occurrences that themselves end before they start |
| FreeBusy.ReversedWindow | internal/caldav/report_extra.go:189-204 | in a reversed window the condition holds only when nothing is busy |
| FreeBusy.ReportFreeBusy | internal/caldav/report_extra.go:177-204 | from unsorted occurrences the report covers exactly the clamped instants, and is well-formed if and only if the sorted occurrences meet that condition |
| FreeBusy.AnyOrderIff | internal/caldav/report_extra.go:184-184 | the report is well-formed however ties are sorted if and only if each clamped occurrence that runs backwards is reached by one that starts strictly earlier |
| FreeBusy.TiesDecide | internal/caldav/report_extra.go:184-184 | two concrete occurrences with equal starts of which one order is well-formed and the other is not |
| FreeBusy.ReversedPeriod | internal/caldav/report_extra.go:189-204 | a concrete window that ends before it starts and yields a period that ends before it starts |
| FreeBusy.BackwardsPeriod | internal/caldav/server.go:693-764 | a concrete event that ends before it starts and is reported so, in a window that is in order |
| CalendarData.UnfoldLines | internal/caldav/ical.go:12-26 | the loop equals the fold over raw lines: endings stripped, blanks dropped, continuations joined |
| CalendarData.UnfoldFold | internal/caldav/ical.go:12-26 | lines folded at any positions with CRLF and a space unfold to the lines they were |
| CalendarData.SplitPropLine | internal/caldav/ical.go:30-57 | the loop splits a line into name, parameters and value at the first colon outside quotes |
| CalendarData.SplitPrinted | internal/caldav/ical.go:30-57 | a printed name, parameter list and value are split back, whatever colons stand inside quotes |
| CalendarData.NoProp | internal/caldav/ical.go:30-57 | a line is no property line if and only if every colon in it is quoted |
| CalendarData.ScanForest | internal/caldav/ical.go:137-175 | the machine runs through the lines of any component forest, leaves its stack as it was, and counts what the forest holds |
| CalendarData.Decompose | internal/caldav/ical.go:137-175 | every run that ends well splits into a forest, the end line of the innermost component, and a run around it |
| CalendarData.AcceptsIff | internal/caldav/ical.go:132-177 | lines are accepted if and only if they are the flattening of one tree rooted at VCALENDAR with a calendar component at depth two and one non-empty UID there |
| CalendarData.OneComponentAccepted | internal/caldav/ical.go:132-177 | one component in a calendar is an object if and only if it is an event, a task or a journal entry and has a UID |
| CalendarData.SameUidRequired | internal/caldav/ical.go:132-177 | two components of a kind are one object if and only if they have the same non-empty UID |
| CalendarData.ValidateCalendarData | internal/caldav/ical.go:132-177 | the loop with its stack, counter and UID returns exactly that |
| SieveText.QuoteReadsBack | internal/api/filters_sieve.go:245-249 | the scanner reads a quoted string back as the original and stops at its closing quote, whatever follows |
| SieveText.GlobEscapeIsEach | internal/api/filters_sieve.go:253-257 | the three replacements in sequence equal one escape per character |
| SieveText.PrefixKey | internal/api/filters_sieve.go:151-152 | escape(v) and a star match exactly the strings that start with v |
| SieveText.SuffixKey | internal/api/filters_sieve.go:153-154 | a star and escape(v) match exactly the strings that end with v |
| SieveParser.ParsePrintedArgs | internal/sieve/parser.go:359-412 | a printed argument list reads back up to the character that ends it |
| SieveParser.ParsePrintedTests | internal/sieve/parser.go:415-466 | a printed test list reads back |
| SieveScript.ScriptReadsBack | internal/sieve/parser.go:166-331 | a printed require line with any number of if-rules parses to exactly those commands |
| SieveCompiler.ConditionTextIs | internal/api/filters_sieve.go:141-193 | the text of a condition is the printed form of its test, and empty exactly when it cannot be expressed |
| SieveCompiler.FilterSieveTest | internal/api/filters_sieve.go:115-135 | the loop over the conditions yields the printed test, or nothing when one is missing under matchAll |
| SieveCompiler.ActionTextIs | internal/api/filters_sieve.go:197-228 | the text of an action is the printed form of its command |
| SieveCompiler.ActionCommands | internal/api/filters_sieve.go:80-90 | the loop splits the commands of a filter into flag and folder commands in order |
| SieveCompiler.FiltersToSieve | internal/api/filters_sieve.go:70-107 | the loops produce the script with every flag rule before every folder rule, or nothing without rules |
| SieveCompiler.ScriptParses | internal/api/filters_sieve.go:66-111 | the delivery parser reads every generated script back as the rules it was made from |
| SieveMeaning.NoWidening | internal/api/filters_sieve.go:113-135 | a filter that fires matches its stated conditions, whatever the dropped ones would have meant |
| SieveMeaning.ExactWhenExpressible | internal/api/filters_sieve.go:113-135 | a filter whose conditions can all be expressed fires exactly when they match |
| SieveMeaning.ReceivedTestFits | internal/api/filters.go:115-138 | of the filters the server stores, the Sieve compiler can refuse a test only for the length of a header name |
| SieveTheorem.LeafBuilt | internal/sieve/compile.go:332-447 | the Sieve compiler turns a generated condition into its test exactly when its strings are short enough |
| SieveTheorem.KeyMeans | internal/sieve/match.go:137-214 | the generated key matches, without regard to case, exactly the values the condition asks for |
| SieveTheorem.ScriptCompiles | internal/sieve/compile.go:453-569 | a generated script compiles if and only if every filter in it fits |
| SieveTheorem.FlagRun | internal/sieve/interpreter.go:622-644 | running the flag rules only collects the flags of the firing filters |
| SieveTheorem.FolderRun | internal/sieve/interpreter.go:539-574 | running the folder rules delivers in filter order, each time under the flags they start with |
| SieveTheorem.ItemsWorkIs | internal/sieve/match.go:120-177 | the operations a run is charged for are those counted on the filters and the message |
| SieveTheorem.MeaningPreserved | internal/api/filters_sieve.go:66-107 | parsing, compiling and running the generated text on any message gives exactly the outcome stated on the filters if and only if every filter fits and the run stays within its limits on actions, redirects and operations; otherwise nothing applies |
| SieveTheorem.NoScriptNoEffect | internal/api/filters_sieve.go:98-100 | without a script no message would have been treated differently |
| SieveRun.KeepWithCopies | internal/sieve/interpreter.go:436-460 | the loop adds the implicit keep with the final flags as specified |
| SieveTheorem.FinishIs | internal/sieve/interpreter.go:436-460 | a run of the firing filters ends with a keep if and only if none of their actions settles where the message goes |
| SieveOutcome.NothingLost | internal/sieve/interpreter.go:436-460 | whatever the filters, a run keeps the message or files it other than as a copy |
| SieveOutcome.LocalCopies | internal/sieve/interpreter.go:436-460 | a message is kept or filed once per action that settles where it goes, and once when there is none |
| SieveOutcome.InboxCopy | internal/sieve/interpreter.go:436-460 | when filters only forward and copy, the message also stays in the inbox with all flags |
| SieveOutcome.AllCarriedOut | internal/api/filters_sieve.go:197-228 | every action of every firing filter is carried out: its folder gets the message, its address a copy, under the flags of all |
| SieveOutcome.ForwardedOnce | internal/sieve/interpreter.go:913-933 | however many filters forward a message, no address gets it twice |
| SieveOutcome.LimitsHold | internal/sieve/interpreter.go:408-434 | a run that is not refused has at most 256 actions, 16 redirects and 200000 operations |
| SieveTheorem.FlagsExactly | internal/api/filters_sieve.go:18-26 | the flags are the union of those the firing filters ask for |
| SieveTheorem.SameFlagsEverywhere | internal/api/filters_sieve.go:18-26 | wherever a run files or keeps the message it carries the flags of all firing filters, also later ones |
| SieveTheorem.FewActionsAllowed | internal/sieve/interpreter.go:408-434 | whatever the message, firing filters with at most 256 actions and 16 forwards among them are never refused for their actions |
| SieveTheorem.SeventeenForwards | internal/sieve/interpreter.go:408-434 | a concrete filter that the server stores and the compiler accepts, and whose every run is refused |
| SieveTheorem.LongConditionStopsAll | internal/sieve/compile.go:105-137 | a concrete filter that the server stores and after which no filter list is applied |
| SieveTheorem.ForwardStopsAll | internal/sieve/compile.go:558-562 | a forward address whose bare form does not parse stops all filters |
| LdapPool.NextKeeps | internal/auth/ldap_pool.go:56-131 | every step of every thread keeps the invariant on lock, channel, buffer and connections |
| LdapPool.Safe | internal/auth/ldap_pool.go:56-131 | in every state of every interleaving each dialed connection is in exactly one place, the buffer is within its bound, and no closed channel is sent on or closed |
| LdapPool.AllClosed | internal/auth/ldap_pool.go:117-131 | once the pool is closed and everything is given back, every connection ever dialed has been closed exactly once |
| LdapCalls.CallIsRun | internal/auth/ldap_pool.go:56-131 | a call carried out alone is a run of the state machine |
| LdapCalls.AcquireWarm | internal/auth/ldap_pool.go:56-70 | acquire hands out the warm connection that waited longest |
| LdapCalls.AcquireStale | internal/auth/ldap_pool.go:56-70 | one that is closing is closed and never handed out, and the search goes on |
| LdapCalls.AcquireDials | internal/auth/ldap_pool.go:56-80 | without a warm connection an open pool dials, and a failed dial leaves everything as it was |
| LdapCalls.AcquireClosed | internal/auth/ldap_pool.go:56-80 | a closed pool hands out nothing and dials nothing |
| LdapCalls.ReleaseKept | internal/auth/ldap_pool.go:84-106 | a healthy connection given back to an open pool with room is kept warm |
| LdapCalls.ReleaseFull | internal/auth/ldap_pool.go:84-106 | in a full pool it is closed |
| LdapCalls.ReleaseLate | internal/auth/ldap_pool.go:84-106 | given back to a closed pool it is closed |
| LdapCalls.CloseDrains | internal/auth/ldap_pool.go:118-131 | closing an open pool closes every warm connection once |
| JwtKeys.FindOldest | internal/api/server_admin.go:79-94 | whatever the map order, the loop finds the oldest kid other than the current one |
| JwtKeys.PruneJWTSecrets | internal/api/server_admin.go:76-99 | the loop removes oldest kids until the limit is met and reports exactly those |
| JwtKeys.PruneKeepsNewest | internal/api/server_admin.go:72-99 | pruning keeps the current key, alters nothing, meets the limit, and whatever goes is older than whatever stays |
| JwtKeys.BuildRecord | internal/api/server_admin.go:119-130 | the loop stores every key but keeps the configured secret out as a marker |
| JwtKeys.PersistLoad | internal/api/server_admin.go:119-200 | loading gives back what was persisted if and only if the current key is in it and no secret is empty |
| JwtKeys.SecretKeptOut | internal/api/server_admin.go:119-130 | the record written for the same rotated keys is the same whatever the configured secret is |
| JwtRuns.KeyServer.HandleJWTRotate | internal/api/server_admin.go:20-70 | a rotation publishes what it has written, and a failed write changes neither memory nor disk |
| JwtRuns.KeyServer.LoadJWTKeys | internal/api/server_admin.go:151-200 | memory becomes the persisted set, or stays when the record is absent or lacks its current key |
| JwtRuns.RotateNewest | internal/api/server_admin.go:20-99 | rotating the newest five keys of a history gives the newest five of the longer history |
| JwtRuns.AfterRun | internal/api/server_admin.go:20-200 | after every run of rotations, failed writes, crashes and restarts, memory is what the disk would load: the newest five keys written, the current one among them |
| JwtRuns.KeyLifetime | internal/api/server_admin.go:20-99 | a written key is usable exactly until four more have been written after it |
| MtaSts.ParsePolicy | internal/auth/mtasts.go:378-449 | an accepted policy has version STSv1, one of three modes, a max_age within 86400 and 31557600, and an mx pattern unless its mode is none |
| MtaSts.PolicyIs | internal/auth/mtasts.go:378-449 | a file is accepted if and only if its last version and last mode are valid, an mx is there unless the mode is none, and every max_age is a number and there is one; the policy has all mx values in order and the last max_age, clamped |
| MtaSts.FieldReads | internal/auth/mtasts.go:378-449 | a line with a colon gives its key in lower case and its value, with or without a space; comments and lines without a colon give nothing |
| MtaSts.ParseMTASTSPolicy | internal/auth/mtasts.go:378-449 | the line loop accepts and rejects what the specification does |
| MtaSts.MatchIff | internal/auth/mtasts.go:452-482 | a pattern matches its own host, or as a wildcard exactly the hosts one label below |
| MtaSts.LookupMTASTSRecord | internal/auth/mtasts.go:265-292 | the loop finds an id only when exactly one record is an STS record |
| MtaSts.LookupIff | internal/auth/mtasts.go:265-292 | a lookup gives an id if and only if exactly one text is an STS record, and that record has it |
| MtaSts.OtherRecords | internal/auth/mtasts.go:265-292 | a printed record has an id if and only if its version is STSv1 and the id is not empty |
| MtaStsCache.Validator.GetPolicy | internal/auth/mtasts.go:151-221 | the call answers and updates its domain's entry as specified and touches no other domain |
| MtaStsCache.FetchPolicyWithID | internal/auth/mtasts.go:237-262 | an error, no policy, or a parsed policy with the id of the second lookup |
| MtaStsCache.InForce | internal/auth/mtasts.go:144-221 | in one call, a policy in force is answered whatever DNS and HTTPS do; it is replaced if and only if a due recheck sees another id and the refetch succeeds, and then the stored id changes if and only if the second lookup gave another one |
| MtaStsCache.AnswersIff | internal/auth/mtasts.go:151-221 | in one call, a domain with a stored policy gets a policy if and only if the policy has not ended or a fetch succeeds |
| MtaStsCache.RunSound | internal/auth/mtasts.go:208-217 | in every run a stored policy has a clamped max_age, ends that long after its fetch, and has a non-empty id |
| MtaStsCache.AbsentIff | internal/auth/mtasts.go:190-206 | in every run a call answers from a cached absence if and only if a call in the five minutes before found no policy in force and no record |
| MtaStsCache.RunAnswersIff | internal/auth/mtasts.go:144-221 | in every run a call answers a policy if and only if the policy stored last has not ended, or a fetch succeeds and no absence is cached |
| MtaStsCache.AnswersUntilIff | internal/auth/mtasts.go:144-221 | from a stored policy on, all calls before a time answer a policy if and only if for each of them the policy stored last has not ended or a fetch succeeds |
| MtaStsCache.RunStores | internal/auth/mtasts.go:151-221 | in every run a call leaves a new policy if and only if it refetches the one in force, or nothing is in force, no absence is cached and the fetch succeeds; the policy it answers is the one it leaves |
| MtaStsCache.AnsweredPolicy | internal/auth/mtasts.go:144-221 | in every run the policy answered is the one fetched by the latest call that stored one, or the first one |
| MtaStsCache.NoDowngrade | internal/auth/mtasts.go:144-221 | over every run, if no policy file served on the way ends before a time, a policy stored until then is answered in every call before it, whatever fails |
| MtaStsCache.OneDay | internal/auth/mtasts.go:144-221 | for one day after any policy was stored, every call of every run answers a policy without error |
| MtaStsCache.SameIdReplaced | internal/auth/mtasts.go:166-183 | a concrete call that replaces a policy under the id it already had |
| MtaStsCache.ShorterReplacement | internal/auth/mtasts.go:208-217 | a concrete run in which a call fails before the first max_age has elapsed |
| MailQuota.SaveKeeps | internal/api/mail.go:257-298 | saving a sent copy keeps counter and blobs exact; a refused save changes nothing |
| MailQuota.MoveAllKeeps | internal/api/mail_move.go:192-229 | a batch of moves keeps every hash referenced, writes no blob and leaves the counter alone |
| MailQuota.MoveAllCopies | internal/api/mail_move.go:192-283 | a batch of moves never loses a copy of any message, and duplicates none if and only if it takes every row once |
| MailQuota.OthersStay | internal/api/mail_move.go:192-283 | rows that a batch does not take stay as they are |
| MailQuota.MovedThere | internal/api/mail_move.go:192-283 | after a batch every message it took is in the destination, and none of the rows it took is left in the source |
| MailQuota.UidsGrow | internal/api/mail_move.go:192-283 | over every run the next UID of a mailbox never goes back |
| MailQuota.DeletePlainKeeps | internal/api/mail.go:816-860 | deleting by hash drops all its rows and its blob and keeps everything else exact |
| MailQuota.DeleteQualifiedKeeps | internal/api/mail.go:802-814 | deleting one copy drops one row, and the blob only when nothing else references it |
| MailQuota.RunKeeps | internal/api/mail_quota.go:18-50 | over every run of these requests the counter is the sum of the sizes of the distinct referenced blobs, and exactly those are stored |
| MailQuota.RunWithin | internal/db/db.go:730-770 | no run of these requests takes an account over its limit |
| MailQuota.SaveRefusedIff | internal/api/mail_quota.go:18-33 | a save is refused if and only if no row holds the message and its bytes would go over the limit |
| MailHandler.QualifiedRoundTrip | internal/api/mail_ref.go:17-38 | a copy-qualified id names the row it was made for, and a plain hash is never taken for one |
| MailHandler.Handler.CountHash | internal/api/mail_ref.go:71-89 | the scan counts the rows that hold a hash |
| MailHandler.Handler.DeleteMessageMetadata | internal/api/mail.go:838-860 | the loop removes exactly the rows that hold a hash |
| MailHandler.Handler.DeleteBlob | internal/storage/messagestore.go:562-582 | a blob is removed only when no row references it |
| MailHandler.Handler.QuotaAdjust | internal/db/db.go:730-770 | a charge is refused over the limit or at overflow, a release never goes below zero |
| MailHandler.Handler.ChargeBlob | internal/api/mail_quota.go:18-33 | a blob is charged once, and removed again when the charge is refused |
| MailHandler.Handler.ReleaseBlob | internal/api/mail_quota.go:35-50 | bytes are given back exactly when the blob was removed |
| MailHandler.Handler.SaveSentCopy | internal/api/mail.go:257-298 | store, charge and add the row as specified, with the invariant kept |
| MailHandler.Handler.HandleMailDelete | internal/api/mail.go:802-826 | both kinds of delete as specified, with the invariant kept |
| MailHandler.Handler.GetMessageUIDs | internal/storage/database.go:673-692 | the UIDs of a mailbox, all of them in ascending order |
| MailHandler.Handler.FindUid | internal/api/mail_move.go:83-109 | a message is found exactly when the mailbox holds it; a qualified id gives its row, a plain id the first row with its hash |
| MailHandler.PlanUnique | internal/api/mail_move.go:83-109 | a list of ids stands for one list of rows only |
| MailHandler.OneKindTakesOnce | internal/api/mail_move.go:146-212 | distinct ids that are all plain, or all qualified as listed, name every row once |
| MailHandler.NamedTwice | internal/api/mail_move.go:146-229 | any row named by its plain and its qualified id is accepted twice and ends up duplicated |
| MailHandler.CollectIds | internal/api/mail_move.go:148-163 | the loop keeps the first of each non-empty id, or refuses when one is malformed |
| MailHandler.Handler.MoveBatch | internal/api/mail_move.go:192-229 | all ids are valid and all move, or nothing changes |
| MailHandler.Handler.HandleMailMove | internal/api/mail_move.go:146-250 | a request is carried out if and only if its ids are well-formed, some and at most 1000, its folders resolve, differ and exist, and every message may move; otherwise nothing changes. Blobs, counter and referenced hashes stay the same, and the number of copies of every message does if and only if no row is named twice |

## Left out

- Cryptography, base64, key parsing and the DKIM key cache: functions with the laws a theorem needs, the ideal ones where a changed message must fail.
- DKIM: copied headers z=, the agent tag i= and the texts of error messages.
- ARC: the signer's key lookup.
- SPF: macro expansion, address and prefix matching, and the explanation strings are parameters; the record cache is empty.
- Recurrence: time zones and daylight saving, the parsing of rules and the recurrence overrides of an event; a DATE-valued UNTIL is its last second; the product of period and INTERVAL does not wrap at 64 bits; the duration of an event is given (the code caps it at 292 years).
- Calendar objects: everything but the structural check, such as time ranges and property filters.
- Filters: loading and ordering by priority, the limits on names and numbers of filters, and text beyond one byte per character.
- Sieve parser: comments, numbers and multi-line strings, which generated scripts never hold, are rejected.
- Sieve compiler and interpreter: other tests and commands, nested test lists, tags with arguments, splitting of flag strings, MIME decoding, and the limit of five seconds on a run. An expression that compiles is taken to compile with case folding too; no generated pattern reaches the limit on matching steps.
- LDAP pool: nil connections and the dialer itself; callers give back only what they hold, once.
- JWT keys: a server without a database, configured key versions, unreadable or foreign records, and sealing, which is taken to open under the same secret.
- MTA-STS: overlapping calls, the HTTPS fetch and its address checks (only its outcome), and policies cached for other domains beyond being untouched.
- Mail: decoding and authentication of requests, the resolution of folder names, overlapping requests, storage calls that fail after a charge, drafts, flags, and rows other than their blob hash; mailboxes and UIDs are scanned as one set of row keys.
- JwtRuns.AfterRun: assumes the clock is ahead of every kid written so far, because kids are nanosecond times and the code does not check them.
