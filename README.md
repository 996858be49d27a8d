# Bank transaction reconciliation and publish-option checking, in Dafny

This project models two pieces of the cozy-libs repository and proves
properties of them.

- **Bank transaction reconciliation** (`packages/cozy-doctypes/src/BankTransaction.js`).
  - A freshly fetched ("remote") batch of bank transactions is merged with the stored ("local") batch of the same account.
  - Remote transactions whose `vendorId` is known locally are *updated*. The others are *new*.
  - The *split date* is the latest day (the first ten characters of `date`) among the local transactions.
  - When there is a split date, only the new transactions strictly after it are kept.
  - New transactions on or before the split date are added back only when they are *missed*. A transaction is missed when its identifier (`amount-originalBankLabel-date`) has more remote candidates than stored transactions. In that case the first surplus candidates of that identifier are added back.
  - The updated transactions are appended at the end.
  - Two observers (`onSplitDate`, `onMissedTransactionsFound`) are told what happened.
- **Publish options** (`packages/cozy-app-publish/lib/prepublish.js`).
  - `sanitize` keeps nine known options and drops the rest.
  - `check` runs a fixed validator table in order. It throws the message of the first validator that fails, or returns the options unchanged.

Modules, in dependency order:

- `Wrappers`: `Option` and `Result`.
- `StringOrder`: JavaScript's `<` on strings, as a lexicographic order on `seq<char>`.
- `Transactions`: the transaction record, `getDate`, `getSplitDate`, `isAfter`, `isBeforeOrSame` and `getIdentifier`.
- `Selection`: `Array.prototype.filter` and lodash `groupBy` by identifier. Groups keep the order in which their keys were first met.
- `MissedTransactions`: `getMissedTransactions`.
  - Specification functions `Missed`, `MoreCount` and `LessCount`.
  - The imperative method `GetMissedTransactions`, proved against them.
- `Reconciliation`: `reconciliate`.
  - The specification functions `Reconciled` and `Observed`.
  - The method `Reconciliate`, proved against them.
- `Prepublish`: `sanitize`, the validators, `optionsTypes`, and the method `Check`.
  - `Check` is the imperative loop over the table.
  - It is proved equal to `ExpectedFailure`, which writes the table out option by option.

How the JavaScript is modelled:

- **Callbacks.** They are returned as values.
  - `GetMissedTransactions` returns the two counters that `onMissedTransactionsFound` would receive.
  - `Reconciliate` returns the list of observer calls it makes: `[SplitDateFound, MissedTransactionsFound(more, less)]`, or `[]`.
- **`amount`.** It is held as the string it prints as.
- **`vendorId`.** It is an `Option<string>`, so two absent ids match, as `undefined === undefined` does.
- **`throw`.** It becomes `Failure(message)`.
- **Option values.** Each one is `undefined`, `null`, a string or some other defined value.

`getMissedTransactions` keeps the **first** `n - m` candidates of an identifier, as `slice(0, difference)` does
(packages/cozy-doctypes/src/BankTransaction.js:128-129). It does not keep the last ones: when the group has stored matches, its last `m` candidates are never recovered. The model follows the code.

## Model

| member | source | states |
|---|---|---|
| StringOrder.Less | packages/cozy-doctypes/src/BankTransaction.js:38 | JavaScript `<` on two strings: the first differing character decides, and a proper prefix comes first; a strict total order by LessIrreflexive, LessTransitive and LessTrichotomy |
| StringOrder.LessOrEqual | packages/cozy-doctypes/src/BankTransaction.js:56 | equal or smaller; the reading of JavaScript `day <= maxDate` by NotGreaterIsLessOrEqual |
| StringOrder.LessIrreflexive | packages/cozy-doctypes/src/BankTransaction.js:38 | no day is strictly after itself under JavaScript string order |
| StringOrder.LessTransitive | packages/cozy-doctypes/src/BankTransaction.js:38 | string `<` is transitive, so the greatest day is well defined |
| StringOrder.LessOrEqualTransitive | packages/cozy-doctypes/src/BankTransaction.js:56 | string `<=` is transitive |
| StringOrder.LessTrichotomy | packages/cozy-doctypes/src/BankTransaction.js:38 | two strings are equal or exactly one is smaller: string `<` is a strict total order |
| StringOrder.NotGreaterIsLessOrEqual | packages/cozy-doctypes/src/BankTransaction.js:56 | `day <= maxDate` (not `maxDate < day`) holds exactly when the day equals or precedes the bound |
| Transactions.Day | packages/cozy-doctypes/src/BankTransaction.js:8 | the day is the first ten characters of `date`, or all of it when shorter, and is a prefix of it |
| Transactions.Identifier | packages/cozy-doctypes/src/BankTransaction.js:73-75 | `getIdentifier`: amount, original bank label and full date joined by `-`; what it depends on is IdentifierIgnoresOtherFields and IdentifierKeepsFullDate |
| Transactions.IsAfter | packages/cozy-doctypes/src/BankTransaction.js:32-48 | `isAfter`: true without a bound, false on the day "NaN", otherwise day > bound; related to `isBeforeOrSame` by DayTestsPartition |
| Transactions.IsBeforeOrSame | packages/cozy-doctypes/src/BankTransaction.js:50-66 | `isBeforeOrSame`: true without a bound, false on the day "NaN", otherwise day <= bound; related to `isAfter` by DayTestsPartition |
| Transactions.IdentifierIsNotIndexLike | packages/cozy-doctypes/src/BankTransaction.js:73-75 | an identifier always holds a `-`, so it is never an array-index key and `Object.entries` lists groups in insertion order |
| Transactions.IdentifierIgnoresOtherFields | packages/cozy-doctypes/src/BankTransaction.js:73-75 | transactions agreeing on amount, original bank label and date share an identifier, whatever their vendor id or other fields |
| Transactions.IdentifierKeepsFullDate | packages/cozy-doctypes/src/BankTransaction.js:73-75 | equal identifiers with equal amounts and labels imply equal full dates (not only equal days) |
| Transactions.DayTestsPartition | packages/cozy-doctypes/src/BankTransaction.js:32-66 | with a non-empty bound, `isAfter` and `isBeforeOrSame` never both hold, both fail exactly when the day is the literal "NaN", and otherwise they are day > bound and day <= bound |
| Transactions.DayTestsWithoutBound | packages/cozy-doctypes/src/BankTransaction.js:33-34 | with an empty bound both tests accept every transaction |
| Transactions.Days | packages/cozy-doctypes/src/BankTransaction.js:16 | the mapped days, one per local transaction, in order |
| Transactions.MaxFrom | packages/cozy-doctypes/src/BankTransaction.js:16 | lodash `max` as a left fold that replaces only on strictly greater; its result is an argument that nothing exceeds by MaxFromIsGreatest |
| Transactions.Max | packages/cozy-doctypes/src/BankTransaction.js:16 | lodash `max`: undefined on an empty list, else the fold from the first element |
| Transactions.SplitDate | packages/cozy-doctypes/src/BankTransaction.js:15-17 | there is no split date exactly when the local batch is empty |
| Transactions.MaxFromIsGreatest | packages/cozy-doctypes/src/BankTransaction.js:16 | lodash `max` returns one of its arguments and nothing passed is greater |
| Transactions.SplitDateIsLatestDay | packages/cozy-doctypes/src/BankTransaction.js:8-17 | for a non-empty local batch the split date is the day of some local transaction and every local day precedes or equals it |
| Transactions.EmptySplitDate | packages/cozy-doctypes/src/BankTransaction.js:171-173 | the split date is the empty string (falsy) exactly when every local day is empty |
| Selection.Filter | packages/cozy-doctypes/src/BankTransaction.js:182 | `filter` returns no more elements than it is given, each one of the input and passing the test; order and multiplicities are FilterConcat and FilterCount |
| Selection.FilterConcat | packages/cozy-doctypes/src/BankTransaction.js:182 | filtering a concatenation is concatenating the filtered parts |
| Selection.FilterCount | packages/cozy-doctypes/src/BankTransaction.js:182 | a filter keeps every copy of an accepted element and none of a rejected one |
| Selection.FilterSubMultiset | packages/cozy-doctypes/src/BankTransaction.js:195 | a filter's result is a sub-multiset of its input |
| Selection.FilterAll | packages/cozy-doctypes/src/BankTransaction.js:182 | a test that accepts every element returns the input unchanged |
| Selection.FilterNone | packages/cozy-doctypes/src/BankTransaction.js:195 | a test that rejects every element returns `[]` |
| Selection.FilterSameTest | packages/cozy-doctypes/src/BankTransaction.js:182 | two tests agreeing on every element select the same elements |
| Selection.FilterSplit | packages/cozy-doctypes/src/BankTransaction.js:162-169 | two exclusive tests select disjoint parts of the input, which together are all of it when every element passes one |
| Selection.WithIdentifier | packages/cozy-doctypes/src/BankTransaction.js:89-95 | one lodash group: the transactions with a given identifier, in order |
| Selection.WithIdentifierMembers | packages/cozy-doctypes/src/BankTransaction.js:89-95 | a group holds only transactions of the input with the group's identifier |
| Selection.GroupByIdentifier | packages/cozy-doctypes/src/BankTransaction.js:89-95 | lodash `groupBy` by identifier: each transaction pushed onto its identifier's group, a new key appended when first met; its groups and key order are GroupByIdentifierGroups and KeysInFirstOccurrenceOrder |
| Selection.Lookup | packages/cozy-doctypes/src/BankTransaction.js:107 | `existingByIdentifier[identifier]`, defaulting to `[]`: a key's group, empty when absent |
| Selection.GroupByIdentifierGroups | packages/cozy-doctypes/src/BankTransaction.js:89-107 | lodash `groupBy` by identifier lists distinct keys, exactly the identifiers present; each key's group (`|| []` when absent) is the in-order selection of that identifier, and no group is empty |
| Selection.GroupOf | packages/cozy-doctypes/src/BankTransaction.js:104-107 | the same, for one key |
| Selection.FirstIndex | packages/cozy-doctypes/src/BankTransaction.js:104-106 | the position of the first transaction with a given identifier, or the batch length when none has it |
| Selection.FirstIndexIsFirst | packages/cozy-doctypes/src/BankTransaction.js:104-106 | that position holds the identifier and no earlier transaction does |
| Selection.KeysInFirstOccurrenceOrder | packages/cozy-doctypes/src/BankTransaction.js:89-106 | `Object.entries` of the grouping lists an identifier exactly when it occurs, and of two identifiers the one met first comes first |
| MissedTransactions.Keys | packages/cozy-doctypes/src/BankTransaction.js:104-106 | the identifiers the loop visits, in `Object.entries` order |
| MissedTransactions.KeysAreGroups | packages/cozy-doctypes/src/BankTransaction.js:104-106 | the loop visits distinct identifiers, and an identifier it skips has no candidate |
| MissedTransactions.Surplus | packages/cozy-doctypes/src/BankTransaction.js:109-129 | one identifier contributes a prefix of its group of length max(0, n - m) |
| MissedTransactions.Excess | packages/cozy-doctypes/src/BankTransaction.js:109-128 | max(0, n - m): how many candidates one identifier contributes |
| MissedTransactions.MissedOver | packages/cozy-doctypes/src/BankTransaction.js:104-129 | the surpluses of the listed identifiers, concatenated in list order, as the pushes of the loop accumulate them |
| MissedTransactions.MoreOver | packages/cozy-doctypes/src/BankTransaction.js:104-126 | the number of listed identifiers with more candidates than stored transactions |
| MissedTransactions.LessOver | packages/cozy-doctypes/src/BankTransaction.js:104-144 | the number of listed identifiers with fewer candidates than stored transactions |
| MissedTransactions.Missed | packages/cozy-doctypes/src/BankTransaction.js:84-155 | what `getMissedTransactions` returns: the surplus of every identifier, identifiers in first-occurrence order; characterised by MissedByIdentifier, MissedSubMultiset and MissedLength |
| MissedTransactions.MoreCount | packages/cozy-doctypes/src/BankTransaction.js:99-126 | the first number passed to `onMissedTransactionsFound`; counted by ObserverCounts |
| MissedTransactions.LessCount | packages/cozy-doctypes/src/BankTransaction.js:101-144 | the second number passed to `onMissedTransactionsFound`; counted by ObserverCounts |
| MissedTransactions.GetMissedTransactions | packages/cozy-doctypes/src/BankTransaction.js:84-156 | the loop returns the surplus of every identifier in group order and the two counters passed to `onMissedTransactionsFound` |
| MissedTransactions.SurplusHasIdentifier | packages/cozy-doctypes/src/BankTransaction.js:128-129 | a surplus holds only transactions of its identifier |
| MissedTransactions.MissedByIdentifier | packages/cozy-doctypes/src/BankTransaction.js:109-132 | the missed transactions with identifier k are exactly the first n - m candidates of k when n > m, and none otherwise |
| MissedTransactions.MissedCount | packages/cozy-doctypes/src/BankTransaction.js:128-129 | no candidate is returned more often than it occurs |
| MissedTransactions.MissedSubMultiset | packages/cozy-doctypes/src/BankTransaction.js:97-155 | the missed transactions are a sub-multiset of the candidates |
| MissedTransactions.MissedOverLength | packages/cozy-doctypes/src/BankTransaction.js:128-129 | the output over a list of identifiers has length the sum of their excesses |
| MissedTransactions.MissedLength | packages/cozy-doctypes/src/BankTransaction.js:104-155 | the output has length the sum over identifiers of max(0, n - m) |
| MissedTransactions.NoCandidates | packages/cozy-doctypes/src/BankTransaction.js:97-155 | no candidates give `[]` and both counters zero |
| MissedTransactions.NoSurplusNothingMissed | packages/cozy-doctypes/src/BankTransaction.js:109 | when no identifier has more candidates than stored transactions nothing is returned |
| MissedTransactions.MoreOverZero | packages/cozy-doctypes/src/BankTransaction.js:109-129 | over any list of identifiers, the "more" counter is zero exactly when nothing is emitted |
| MissedTransactions.MissedIffMore | packages/cozy-doctypes/src/BankTransaction.js:109-129 | the result is empty exactly when the first counter is zero |
| MissedTransactions.MoreGroups | packages/cozy-doctypes/src/BankTransaction.js:109-126 | the identifiers with n > m |
| MissedTransactions.LessGroups | packages/cozy-doctypes/src/BankTransaction.js:132-144 | the identifiers with n < m |
| MissedTransactions.MoreOverCountsGroups | packages/cozy-doctypes/src/BankTransaction.js:109-126 | over distinct identifiers, the "more" counter is the number of identifiers with n > m |
| MissedTransactions.LessOverCountsGroups | packages/cozy-doctypes/src/BankTransaction.js:132-144 | over distinct identifiers, the "less" counter is the number of identifiers with n < m |
| MissedTransactions.ObserverCounts | packages/cozy-doctypes/src/BankTransaction.js:99-153 | the observer receives the number of groups with n > m and the number with n < m; groups with n = m are in neither, so the two never exceed the number of groups |
| MissedTransactions.DisjointPartsBound | packages/cozy-doctypes/src/BankTransaction.js:109-132 | the "more" and "less" groups are disjoint parts of all groups, so their sizes add up to at most the whole |
| MissedTransactions.DistinctCardinality | packages/cozy-doctypes/src/BankTransaction.js:104-106 | distinct identifiers number as many as the groups listed |
| MissedTransactions.OneIdentifier | packages/cozy-doctypes/src/BankTransaction.js:89-91 | a batch sharing one identifier forms exactly one group |
| MissedTransactions.OnlyKey | packages/cozy-doctypes/src/BankTransaction.js:89-106 | a non-empty batch sharing one identifier is grouped under that identifier and no other |
| MissedTransactions.OneIdentifierSurplus | packages/cozy-doctypes/src/BankTransaction.js:109-129 | for a single identifier, the output is the first n - m candidates when n > m, else `[]` |
| MissedTransactions.OneIdentifierCounts | packages/cozy-doctypes/src/BankTransaction.js:126-144 | for a single identifier the counters are (1, 0), (0, 1) or (0, 0) as n > m, n < m or n = m |
| Reconciliation.FindByVendorId | packages/cozy-doctypes/src/BankTransaction.js:159-160 | `find` succeeds exactly when some local transaction has the same vendor id, and returns such a transaction, the first when it is at the head |
| Reconciliation.IsKnown | packages/cozy-doctypes/src/BankTransaction.js:159-165 | the truthiness of `findByVendorId`: some local transaction has the same vendor id |
| Reconciliation.IsKnownIffVendorId | packages/cozy-doctypes/src/BankTransaction.js:159-165 | a remote transaction is "updated" exactly when its vendor id is among the local vendor ids |
| Reconciliation.UpdatedTransactions | packages/cozy-doctypes/src/BankTransaction.js:162-169 | `groups.updatedTransactions`, defaulting to `[]`: the remote transactions with a known vendor id, in order; see RemotePartition |
| Reconciliation.NewTransactions | packages/cozy-doctypes/src/BankTransaction.js:162-168 | `groups.newTransactions`, defaulting to `[]`: the remote transactions with an unknown vendor id, in order; see RemotePartition |
| Reconciliation.AfterSplit | packages/cozy-doctypes/src/BankTransaction.js:178-182 | the new transactions strictly after the split date |
| Reconciliation.BeforeSplit | packages/cozy-doctypes/src/BankTransaction.js:179-195 | the new transactions on or before the split date |
| Reconciliation.Truthy | packages/cozy-doctypes/src/BankTransaction.js:173 | `if (splitDate)`: defined and not the empty string |
| Reconciliation.Reconciled | packages/cozy-doctypes/src/BankTransaction.js:171-231 | the result of `reconciliate`: after-split new transactions, then the missed ones before it, then the updated ones; or new then updated without a split date; characterised by ReconciledSubMultiset, KeptInFull and UpdatedLast |
| Reconciliation.Observed | packages/cozy-doctypes/src/BankTransaction.js:148-176 | the observer calls: `onSplitDate` then `onMissedTransactionsFound`, or none; characterised by ObserverCalls |
| Reconciliation.Reconciliate | packages/cozy-doctypes/src/BankTransaction.js:158-232 | the method returns new-after-split, then the missed transactions found before the split, then the updated ones (or new then updated without a split date), and the observer calls made |
| Reconciliation.ObserverCalls | packages/cozy-doctypes/src/BankTransaction.js:148-207 | with a split date `onSplitDate` is called once and then `onMissedTransactionsFound` once with the group counts of the new transactions on or before it; without one, neither is called |
| Reconciliation.UpdatedLast | packages/cozy-doctypes/src/BankTransaction.js:169-231 | the updated transactions close the result, in their fetched order |
| Reconciliation.RemotePartition | packages/cozy-doctypes/src/BankTransaction.js:159-169 | every remote transaction is either updated (its vendor id is known locally) or new (it is not), and the two groups make up the remote batch |
| Reconciliation.PartitionDependsOnVendorIdsOnly | packages/cozy-doctypes/src/BankTransaction.js:159-165 | two local batches with the same vendor ids, however duplicated, split the remote batch the same way |
| Reconciliation.PieceCounts | packages/cozy-doctypes/src/BankTransaction.js:168-207 | how often a transaction occurs in the updated, new, after-split, before-split and missed pieces |
| Reconciliation.ReconciledSubMultiset | packages/cozy-doctypes/src/BankTransaction.js:220-231 | no remote transaction is returned more often than it was fetched, and without a split date the result is a rearrangement of the remote batch |
| Reconciliation.KeptInFull | packages/cozy-doctypes/src/BankTransaction.js:182-231 | with a split date, an updated transaction or a new one after it is returned as often as it was fetched |
| Reconciliation.UnparsableDayDropped | packages/cozy-doctypes/src/BankTransaction.js:37-55 | with a split date, a new transaction whose day is "NaN" is never returned |
| Reconciliation.ReconcileWithoutLocal | packages/cozy-doctypes/src/BankTransaction.js:159-231 | with no local transaction there is no split date and the remote batch comes back as it is |
| Reconciliation.ReconcileEmptyRemote | packages/cozy-doctypes/src/BankTransaction.js:168-231 | an empty remote batch gives an empty result |
| Prepublish.Sanitize | packages/cozy-app-publish/lib/prepublish.js:8-32 | the sanitized object has exactly the nine expected keys, each holding the input's value or `undefined` |
| Prepublish.SanitizeKeepsOnlyExpected | packages/cozy-app-publish/lib/prepublish.js:5-31 | the nine keys are copied and any other key (such as `prepublishHook`) is dropped |
| Prepublish.SanitizeIdempotent | packages/cozy-app-publish/lib/prepublish.js:8-32 | sanitizing twice is sanitizing once |
| Prepublish.NineKeys | packages/cozy-app-publish/lib/prepublish.js:9-19 | the nine destructured names are distinct |
| Prepublish.SanitizedHasNineKeys | packages/cozy-app-publish/lib/prepublish.js:21-31 | the sanitized object always has nine keys |
| Prepublish.Get | packages/cozy-app-publish/lib/prepublish.js:66 | `options[option]`: a missing key reads as `undefined` |
| Prepublish.Accepts | packages/cozy-app-publish/lib/prepublish.js:34-47 | the validators' tests: defined for `isRequired` and `isRequiredFromManifest`, a listed string for `isOneOf`; see RequiredRejection, ManifestRejection and AppTypeRejection |
| Prepublish.Join | packages/cozy-app-publish/lib/prepublish.js:46 | `values.join(separator)`; on the two application types by JoinAppTypes |
| Prepublish.Message | packages/cozy-app-publish/lib/prepublish.js:34-47 | the message each validator builds, from the option name or the manifest attribute |
| Prepublish.FirstRejection | packages/cozy-app-publish/lib/prepublish.js:65-69 | the message of the first validator of one option that rejects its value, or none |
| Prepublish.FirstFailure | packages/cozy-app-publish/lib/prepublish.js:63-70 | the first rejection over the table from a given entry on, entries in declaration order; equal to ExpectedFailure by TableMatchesExpected |
| Prepublish.ExpectedFailure | packages/cozy-app-publish/lib/prepublish.js:49-57 | the table read option by option, as an independent definition of what `check` throws |
| Prepublish.RequiredRejection | packages/cozy-app-publish/lib/prepublish.js:39-42 | `isRequired` rejects only `undefined` (so `null` and "" pass), with "Option <key> is required." |
| Prepublish.ManifestRejection | packages/cozy-app-publish/lib/prepublish.js:34-37 | `isRequiredFromManifest` rejects only `undefined`, naming the manifest attribute, not the option |
| Prepublish.AppTypeRejection | packages/cozy-app-publish/lib/prepublish.js:44-52 | `appType` fails first when undefined with the manifest message, then when it is not "webapp" or "konnector" with the list of allowed values |
| Prepublish.JoinAppTypes | packages/cozy-app-publish/lib/prepublish.js:46 | `['webapp', 'konnector'].join(', ')` is "webapp, konnector" |
| Prepublish.RequiredTailFailure | packages/cozy-app-publish/lib/prepublish.js:53-70 | the last four table entries fail in the order appVersion, registryUrl, registryEditor, registryToken, each only when undefined |
| Prepublish.TableMatchesExpected | packages/cozy-app-publish/lib/prepublish.js:49-70 | the first failure over the table in declaration order is the option-by-option reading: appBuildUrl, appSlug, appType, appVersion, registryUrl, registryEditor, registryToken |
| Prepublish.CheckPassesIff | packages/cozy-app-publish/lib/prepublish.js:34-73 | `check` passes exactly when the five required options and the slug are defined (any value, `null` included) and the type is "webapp" or "konnector" |
| Prepublish.CheckIgnoresOtherKeys | packages/cozy-app-publish/lib/prepublish.js:49-57 | changing `buildCommit`, `spaceName` or any key outside the table never changes the outcome |
| Prepublish.CheckAfterSanitize | packages/cozy-app-publish/lib/prepublish.js:8-57 | checking the sanitized options gives the same outcome as checking the raw ones |
| Prepublish.Check | packages/cozy-app-publish/lib/prepublish.js:62-73 | the loop throws the first failing validator's message, options and validators in table order, and otherwise returns the options unchanged |

## Left out

- `getMostRecentForAccounts` and `deleteOrphans` (packages/cozy-doctypes/src/BankTransaction.js:234-270) are left out. They are asynchronous database queries and deletes through `Document` and `BankAccount`, which are not part of this model.
- `getVendorAccountId`, the static doctype constants and the `Transaction.getDate` identity method are left out. They are configuration and plain property access.
- Every `log(...)` call is left out. This includes the debug/warn severity chosen at lines 110-113. They only write messages.
- `ensureISOString` is left out. A `Date` object and its `toISOString` are host library calls, so `date` is always a string here.
- JavaScript strings are sequences of UTF-16 code units, while the model uses Dafny `char` values. Comparison (lines 38, 56) orders by code unit, and `slice(0, 10)` (lines 8, 36, 54) counts code units. For a date containing characters outside the Basic Multilingual Plane, both the day and the comparison can differ from the model. The ASCII dates the code handles are unaffected.
- `amount` is held as the string it prints as. Number-to-string formatting is not modelled.
- The callbacks are optional in the source (`typeof … === 'function'`, `if (options.onSplitDate)`). The model returns the calls that are made when the callbacks are provided. The case where a callback is missing or is not a function is not represented.
- Reconciliation.FindByVendorId: states that the first match is returned only when the match is at the head. Which later match `find` returns is unobserved, because only its truthiness is used.
- The lodash internals (`groupBy`, `max`) are modelled by their results: groups in first-encounter order, and a left fold that keeps the first of equal maxima.
- `runHooks`, `shasum256FromURL`, `shasum` and `prepublish` (packages/cozy-app-publish/lib/prepublish.js:1-4, 75-107) are left out. They run external hooks, fetch over HTTP, hash with SHA-256 and orchestrate asynchronously.
- packages/cozy-harvest-lib/src/Manifest.spec.js is left out. It tests `Manifest.sanitize`, and Manifest.js is not part of this model.
- An option value that is defined but not a string (a number, object or boolean) is one opaque value. `isOneOf` rejects it, because `includes` (SameValueZero equality) never equates it with a string.
