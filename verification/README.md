# A verified model of the agent-skills runtime

The runtime keeps a catalog of skills, a bounded store of sessions, and a small layer that parses,
prints and renders skill documents. This project models those parts in Dafny and proves what they
guarantee: for every interleaving of the concurrent operations, for every run of the store, for every
input of the text functions.

Two kinds of model meet in shared specification functions.

- Classes (`Sessions.Session`, `Stores.Store`, `Catalogs.Catalog`) follow the source statement by
  statement. Each method is one critical section and is proved against a pure function of the old state.
- Transition systems (`ActivationProtocol`, `BodyLoading`) interleave the same functions one critical
  section or one catalog call at a time. Theorems about them are inductions over arbitrary runs. In
  `ActivationProtocol`, `activeHandlesLocked` reads the catalog one key per step while the session's
  mutex is held, a removal is three phases (out of the catalog, sessions collected, sessions pruned one
  by one), and every session carries a log of the operations that changed it.

| file | subject |
|---|---|
| `SkillTypes`, `Text`, `Lines`, `Utf8`, `Sorting` | shared values; the byte-level library functions the runtime uses |
| `ActiveList` | what each critical section does to (activeOrder, activeSet, stateVersion) |
| `Session`, `ToolRequests` | the session class, with its in-place compactions and retry loop; the keys of a load request |
| `ActivationProtocol`, `ActivationProofs`, `ActivationTheorems`, `ActivationReports`, `ActivationChecks`, `ActivationFailures` | the interleaved system of activations, unloads, listings, removals and closes; what calls report, what they check, why they fail |
| `BodyLoading`, `BodyProofs` | body loading as single flight, with channels and registrations |
| `HandleNames`, `Catalog`, `CatalogRuns` | handle naming and the handle index; the catalog class; runs of AddSkill and RemoveSkill |
| `StoreModel`, `Store` | expiry, LRU and clock skew over runs; the store class |
| `Identifiers`, `Parts`, `DollarPass`, `BracePass`, `TwoPasses`, `Regions`, `LooseRegions`, `Rendering` | template rendering |
| `Prompt` | the block of available skills and its reader |
| `DocumentModel`, `Document`, `DocumentValidity`, `DocumentRoundTrip`, `DocumentMeaning` | SKILL.md parser, validator and printer |

A Go string is a `string` whose characters are bytes. Handles that an operation returns are represented
by the keys they stand for; the naming of keys is the subject of `HandleNames`.

What turned out not to hold as promised, each with the exact condition under which it does:

- *Only instruction skills become active.* The insert check runs before the retry loop and the check
  before the commit asks for existence only. `InsertCheckCanGoStale` is a run after which nothing is
  under way any more and an open session has a user-message skill active; `OnlyInstructionsActiveIff`
  says that this happens in some run exactly when a key may be registered with both inserts.
- *Every handle resolves to its key.* `HandleIndexIsBijectionIff`: exactly when the 32-bit hash does not
  collide inside a (name, location) group and the second naming pass, which is not repeated, renames no
  entry onto the plain name of another. Over runs of AddSkill and RemoveSkill without NUL bytes,
  `HandlesWorkIff`: exactly when the definitions that may be added hold no two with one name, location
  and hash, and no chain `a`, `a`, `a#h`, `a#h#h'` at one location; names without `#` form no chain.
  `HashSignsInNamesCanClash` gives four such definitions for every hash.
- *The expiry scan evicts every expired session.* `ScanIsExactIff`: exactly when no expired element
  stands in front of a live one. `ScanCanLeaveExpired` is a run of the store that leaves one. With clocks
  read outside the lock the scan is exact up to the clock skew (`ExpiryWithinSkew`).
- *A session in use is found.* `RecentMeansFound`: a lookup finds a session that was neither deleted nor
  pushed out when its last access is within the ttl of every clock since. Within the ttl of the lookup's
  own clock is not enough when another clock runs ahead (`WithinTtlCanBeLost`); with skew at most δ, ttl
  less δ is (`RecentMeansFoundWithinSkew`). Who is found was accessed within ttl plus δ (`FoundMeansRecent`).
- *A parsed document is valid.* `ParserOutputIsValidIff`: exactly when its first heading fits in 256
  bytes or the cut does not leave white space at the end; `HeadingCutAfterSpace` gives failing inputs.
- *The printed form is canonical.* `CanonicalFormIff`: exactly when a heading the printer adds is valid
  text without a carriage return, and the first heading fits. `CutHeadingIsNotCanonical` and
  `ReturnIsNotCanonical` are the two families of failing documents, `CanonicalFormCanFail` has one of
  each. A line of the encoded frontmatter that reads as a fence makes the split go wrong, and nothing
  else does (`SplitGivesBackIff`).
- *Placeholders are substituted at the same time.* The brace pass reads what the dollar pass inserted.
  `SimultaneousIff`: for all values that are non-empty and free of braces and white space, exactly when
  the body has no region that a reference could complete to a placeholder. For values with white space,
  `NoNewHolesIff` says exactly when none of them completes a placeholder, and then
  `LooseRegions.TwoPassesAreOne` gives the same agreement. `ReferenceBetweenBraces`, `BracesInValue` and
  `EmptyValue` are families of inputs for which the result differs, one for each condition.

## Model

| member | source | states |
|---|---|---|
| ActivationTheorems.NoOrphanedKey | runtime.go:238-244 | In every reachable state an active key of an open session whose lock is free is in the catalog, or a removal has deleted it there and still has that session to prune; covers sessions made during the removal and keys removed while handles are read. |
| ActivationTheorems.QuiescentSessionsAreClean | internal/session/store.go:151-172 | Once every removal has finished pruning, open unlocked sessions hold catalog keys only. |
| ActivationTheorems.ListIsReplayOfLog | internal/session/session.go:148-238 | At every moment of every run the list is what the logged atomic operations make of it one after the other, the version counts them, and the list has no repetition, equals the set and respects its bound. |
| ActivationTheorems.ActivationLinearizes | internal/session/session.go:97-269 | A successful activation is a single log entry, its own, after its call began; it applies Replace or Add to the whole list found there. Its handles are that list without the keys found missing, and its own removal of those is the next entry. |
| ActivationReports.HandlesWereRead | internal/session/session.go:243-257 | Every key reported was in the catalog, and every key dropped was not, when the call asked for it after its commit and under the session's lock. |
| ActivationReports.UnloadWasRead | internal/session/tools_impl.go:94-150 | An unload reports the list it left, without keys it found missing; each reported key was in the catalog when the call asked for it, under the lock under which it unloaded. |
| ActivationReports.ListingWasRead | internal/session/session.go:66-95 | A listing reports a list the session had while the call ran, without keys it found missing; each reported key was in the catalog when the call asked for it. |
| ActivationReports.ListingPrunes | internal/session/session.go:90-94 | With its last step a listing takes what it found missing out of the list of an open session; a closed one stays as it was. |
| ActivationChecks.SuccessWasChecked | internal/session/session.go:122-217 | A successful activation found each requested key in the catalog as an instruction skill, and in the round that committed it loaded the body of every key of the installed list and found the key still in the catalog. |
| ActivationFailures.FailureHasReason | internal/session/session.go:106-240 | Every error of an activation has its reason in one of the call's own steps: a closed session, no keys, a user-message skill, more keys than the bound, a key not in the catalog, a body that would not load, or a moved version. |
| ActivationFailures.TooManyAreRefused | internal/session/session.go:196-203 | At the snapshot a call goes on exactly when the session is open and the set of keys it asks for, with the active ones for Add, is no larger than the bound. |
| ActivationFailures.StartMeans | internal/session/session.go:106-120 | A call on a closed session or without keys is refused with that error, any other goes on to its keys. |
| ActivationFailures.ValidateMeans | internal/session/session.go:127-145 | A key named for the first time is refused exactly when it is not in the catalog or no instruction skill, each with its own error. |
| ActivationTheorems.FailureChangesNothing | internal/session/session.go:106-240 | An activation that returned any error wrote to no session. |
| ActivationTheorems.RetryErrorNeedsFiveOthers | internal/session/session.go:146-240 | The retry error means that others raised the version by at least five during the call. |
| ActivationTheorems.SessionsOnlyAdvance | internal/session/store.go:228-236 | Over the rest of any run logs only grow, bounds stay, and a closed session stays closed. |
| ActivationTheorems.InsertCheckCanGoStale | internal/session/session.go:127-217 | A run with removal and re-registration between validation and commit, at the end of which every call has returned, no lock is held, no prune is pending, and a user-message skill is active in an open session. |
| ActivationTheorems.OnlyInstructionsActiveIff | internal/session/session.go:127-217 | Only instruction skills are active in every state of every run exactly when no key may be registered with both inserts; equally so when only states with nothing under way are asked about. |
| ActivationProofs.RunInv | internal/session/session.go:97-327 | The invariant behind the theorems holds after every feasible run. |
| ActivationProofs.StepInv | internal/session/session.go:97-327 | Every step of every operation keeps that invariant. |
| ActivationProofs.VersionMatchMeansUnchanged | internal/session/session.go:225-233 | An unmoved version at commit means the list is the one of the snapshot. |
| ActiveList.DedupCorrect | internal/session/session.go:124-145 | The request keeps every key once, in order of first occurrence. |
| ActiveList.WithoutCorrect | internal/session/session.go:262-265 | A removal keeps exactly the other keys, at increasing positions of the old list: their order is unchanged. |
| ActiveList.NextOrderKeepsRep | internal/session/session.go:163-194 | Replace and Add both give a list without repetitions that holds the old keys (Add) and ends with the request. |
| ActiveList.DropKeepsRep | internal/session/session.go:279-327 | Every removal keeps list and set equal, without repetitions and within the bound. |
| ActiveList.AddThenDrop | internal/session/tools_impl.go:82-150 | Adding the same request twice is adding it once; unloading it leaves the keys that were there and not requested. |
| Sessions.ValidateKeys | internal/session/session.go:122-145 | Validation succeeds exactly when every first occurrence is known and an instruction skill, and yields the keys without repetitions; otherwise the first offending key decides: not found if unknown, invalid argument if of another kind. |
| Sessions.ComputeNext | internal/session/session.go:163-194 | List and set of the next state agree and are the Replace or Add of the snapshot. |
| Sessions.VersionTells | internal/session/session.go:44-47 | Whatever others do, the version never falls, and if it has not moved neither has the list. |
| Sessions.Session.TryCommit | internal/session/session.go:219-238 | The commit happens exactly when the session is open and the version unmoved, and replaces list and set together. |
| Sessions.Session.DeleteKeys | internal/session/session.go:262-265 | Compaction in the backing array leaves exactly the other keys in order. |
| Sessions.Session.FilterInPlace | internal/session/tools_impl.go:130-142 | The filter that overwrites its own input leaves exactly the keys neither removed nor missing from the set. |
| Sessions.Session.ActiveHandles | internal/session/session.go:243-269 | Reports exactly the keys the catalog has, in order, and drops the others; no version change if none is missing. |
| Sessions.Session.PruneKeys | internal/session/session.go:279-310 | Removes the keys from list and set, the version moving only if one was active; nothing on a closed session. |
| Sessions.Session.PruneKey | internal/session/session.go:312-327 | The same for one key. |
| Sessions.Session.UnloadAll | internal/session/tools_impl.go:94-107 | Empties the list and moves the version. |
| Sessions.Session.Unload | internal/session/tools_impl.go:109-150 | Removes the keys and moves the version even if none was active. |
| Sessions.Session.ActivateKeys | internal/session/session.go:97-241 | With others running between its critical sections: a call refused at once changes nothing; otherwise an error leaves exactly what others did until that point of the five rounds, and success applies the mode to the list they left and drops the keys the catalog then lacks. A valid request nobody interferes with, bodies and keys being there, succeeds exactly when the set of requested keys, with the active ones for Add, is no larger than the bound; and every error but the retry error has its reason in a round. |
| Sessions.SucceedsIff | internal/session/session.go:148-238 | The call succeeds exactly when its first round that is not overtaken finds an open session and a list within the bound, loads every body, finds the keys still there, and nothing is written between snapshot and commit. |
| Sessions.RoundMeans | internal/session/session.go:148-238 | Each way a round can end, by what the session, the number of keys, the bodies and the catalog were when it looked; the bound is on the number of different keys. |
| Sessions.ErrorMeans | internal/session/session.go:146-240 | An error other than the retry error has its reason in one of the rounds: invalid argument means that the bound was exceeded by the list found at its snapshot. |
| Sessions.SuccessMeans | internal/session/session.go:219-269 | Success leaves, of the list asked for on top of what others left, exactly the keys the catalog answered for in the successful round. |
| Sessions.QuietCallIsActivation | internal/session/session.go:97-241 | A call nobody interferes with that misses no key does what the one-step activation of the others does. |
| Sessions.RoundsEnd | internal/session/session.go:146-240 | The first round that is not overtaken decides how the call ends; if all are overtaken, everything others did in all rounds has happened. |
| Sessions.RetriesNeedFive | internal/session/session.go:225-240 | The retry error needs every round overtaken, each by a move of the version. |
| Sessions.Session.TryRound | internal/session/session.go:148-238 | One round ends as its checks say, after exactly what others did before the check that ended it; only a commit adds to that. |
| ToolRequests.ResolveRequest | internal/session/tools_impl.go:55-75 | The first incomplete or unknown handle decides the error; otherwise exactly the resolved keys are named, each once and in order of first mention, and activation's own removal of repetitions changes nothing. |
| BodyProofs.ChannelsCloseOnce | internal/catalog/catalog.go:178-182 | In no run is a channel closed twice, by finishBodyLoad or Remove. |
| BodyProofs.SingleFlight | internal/catalog/catalog.go:251-267 | Two live loads of a key never belong to the same registration, also when that registration has been removed meanwhile. |
| BodyProofs.LiveLoaderIsCurrent | internal/catalog/catalog.go:263-267 | A load whose registration is still there is the one its entry waits for. |
| BodyProofs.NoLostWakeup | internal/catalog/catalog.go:251-261 | A waiter's channel is closed, or it is its entry's current one and there is a live load whose finishing closes it. |
| BodyProofs.PublicationsStayHome | internal/catalog/catalog.go:413-441 | The entry a load writes into is of the registration the load began in, at most one load per registration publishes, and a context cancellation is never stored. |
| BodyProofs.StaleFinishIsIgnored | internal/catalog/catalog.go:416-424 | Finishing a load from before a removal leaves a re-added entry as it was. |
| BodyProofs.StoredOutcomeSticks | internal/catalog/catalog.go:241-250 | Within one registration a stored body or error never changes. |
| BodyProofs.EveryoneGetsTheSame | internal/catalog/catalog.go:241-250 | The load that published and all callers served from the entry return the same body or error. |
| BodyProofs.LookMeans | internal/catalog/catalog.go:235-267 | A look fails exactly when the key is not in the catalog, is served exactly what its registration holds if it holds anything, waits exactly for a load in flight, and loads exactly when there is nothing of these. |
| BodyProofs.NotFoundWasAbsent | internal/catalog/catalog.go:235-240 | A call that returned not found looked when the key was not in the catalog. |
| BodyProofs.AddMeans | internal/catalog/catalog.go:126-150 | A registration holds a body from the start exactly when the provider sent a non-empty one, and then that. |
| BodyProofs.FinishMeans | internal/catalog/catalog.go:413-441 | A load that finishes while its registration lasts leaves its result there unless it was cancelled, wakes its waiters and returns its result. |
| BodyProofs.HeldCameFrom | internal/catalog/catalog.go:413-441 | What a registration holds was sent with it or is the result of a load that began in it. |
| BodyProofs.GivingUpTakesFiveLoads | internal/catalog/catalog.go:230-283 | EnsureBody gives up only after five distinct loads it waited for, the first four followed by an entry with neither body nor error. |
| BodyProofs.RunInv | internal/catalog/catalog.go:225-284 | The protocol invariant holds after every run. |
| HandleNames.HandlesDiffer | internal/catalog/catalog.go:371-404 | Different registered keys have different handles, without a hash collision in a group and without an entry renamed onto another's name. |
| HandleNames.HandleIsNormal | internal/catalog/catalog.go:443-448 | Trimming a handle the catalog handed out changes nothing. |
| HandleNames.IndexRoundTrips | internal/catalog/catalog.go:204-223 | Resolving the handle of a registered key gives that key. |
| HandleNames.NothingElseResolves | internal/catalog/catalog.go:204-210 | A handle resolves exactly when some registered key carries it, and then to such a key. |
| HandleNames.ResolvesInWhiteSpace | internal/catalog/catalog.go:204-210 | The handle of a key resolves to it also with white space around its name and location. |
| HandleNames.HandleReads | internal/catalog/catalog.go:371-404 | A handle has the user's own location, and the plain name exactly when no other definition of that name is there; otherwise the name, a number sign and the hash. |
| HandleNames.HandleIndexIsBijectionIff | internal/catalog/catalog.go:371-411 | All keys round-trip through the index, in whatever order it is rebuilt, exactly when no group has a hash collision and the second pass renames no entry onto another's name. |
| HandleNames.IndexIsDetermined | internal/catalog/catalog.go:406-410 | The index depends on the current definitions only, not on history or map order. |
| HandleNames.NoHashSigns | internal/catalog/catalog.go:383-404 | Names without '#' never read like hashed ones, and none is renamed onto another. |
| HandleNames.OverrunsIff | internal/catalog/catalog.go:394-404 | Without NUL bytes, an entry is renamed onto another's name exactly when three names form a chain: the one reads like a hashed member of a shared group, the other like the first one hashed. |
| HandleNames.SecondPassIsIdleIff | internal/catalog/catalog.go:394-404 | Without NUL bytes the second naming pass leaves a name alone exactly when its owner is not alone in its group or is not named like a hashed member of another. |
| HandleNames.AddingIsLocal | internal/catalog/catalog.go:371-411 | Adding or removing a definition changes only handles of its own (name, location) group. |
| HandleNames.HashSignsInNamesCanClash | internal/catalog/catalog.go:394-404 | Whatever the hash, some four trimmed definitions with '#' in names end up with a shared handle. |
| CatalogRuns.AddSkill | runtime.go:188-211 | Registers exactly the new pair, and does so exactly when no field of the definition is empty or has outer white space, the provider's key names the same skill at a location that is not blank with a supported insert, and neither is registered yet. |
| CatalogRuns.RemoveSkill | runtime.go:219-244 | Removes exactly the definition given, if it has no outer white space and is registered. |
| CatalogRuns.RunIsWellFormed | runtime.go:199-211 | After every run of these two, names and locations are trimmed and names are not empty. |
| CatalogRuns.HandlesWorkIff | internal/catalog/catalog.go:371-411 | After every run of AddSkill and RemoveSkill all handles lead back to their keys, exactly when the definitions that may be added (free of NUL) hold neither two of one name, location and hash nor a chain. |
| CatalogRuns.SafeWithoutHashSigns | internal/catalog/catalog.go:371-411 | Of names without '#' only two definitions of one name, location and hash break it. |
| CatalogRuns.ResolvesAfterRun | internal/catalog/catalog.go:204-223 | In the catalog object such a run led to, resolving the stored handle of a key gives that key. |
| Catalogs.Catalog.Add | internal/catalog/catalog.go:67-150 | Refuses in the source's order and without a trace, or registers exactly the new pair: definitions, inserts and bodies of all other entries stay, and names and index are again those the definitions call for. |
| Catalogs.Catalog.Remove | internal/catalog/catalog.go:162-191 | Removes exactly that definition and wakes its waiters, the other entries keeping definition, insert and body; the repair branch for maps out of step is never reached. |
| Catalogs.Catalog.AddThenRemove | internal/catalog/catalog.go:126-191 | Removing what was just added restores every entry, both maps and the handle index, and closes no channel. |
| Catalogs.Catalog.RecomputeNames | internal/catalog/catalog.go:371-411 | From any names and any index, the three passes reach the names and index the definitions determine. |
| Catalogs.Catalog.FirstPass | internal/catalog/catalog.go:383-392 | Every entry gets its plain name exactly when it is alone in its group, the hashed one otherwise. |
| Catalogs.Catalog.SecondPass | internal/catalog/catalog.go:399-404 | Exactly the entries whose counted name was shared are renamed. |
| Catalogs.Catalog.RebuildIndex | internal/catalog/catalog.go:406-410 | Every handle in the index belongs to the key it leads to, and every key's handle is there. |
| Catalogs.Catalog.ResolveHandle | internal/catalog/catalog.go:204-210 | Answers exactly when some registered key's handle is the trimmed handle asked for, and then with such a key. |
| Catalogs.Catalog.HandleForKey | internal/catalog/catalog.go:212-223 | Gives the computed name and the user's own location. |
| Catalogs.Catalog.HandleThereAndBack | internal/catalog/catalog.go:204-223 | A handle given out for a registered key resolves to it. |
| Catalogs.Catalog.Inspect | internal/catalog/catalog.go:235-267 | Not found exactly without an entry; a body, else an error, else a wait if the entry has one; a new load exactly when it has none; no definition or insert is touched. |
| Catalogs.Catalog.FinishBodyLoad | internal/catalog/catalog.go:413-441 | Publishes only for the entry's current channel, storing the body or a lasting error; definitions and inserts stay. |
| StoreModel.ScanCuts | internal/session/store.go:208-226 | The scan cuts the list once: behind the cut all is expired, in front of it stands a live session. |
| StoreModel.ScanIsExactIff | internal/session/store.go:208-226 | The scan equals filtering the whole list exactly when no expired session stands in front of a live one. |
| StoreModel.ScanCanLeaveExpired | internal/session/store.go:74-80 | A run of two session creations, one clock six behind the other, after which the scan leaves an expired session in the store. |
| StoreModel.RunNearlySorted | internal/session/store.go:118-140 | Over any run with clock skew at most δ, a session nearer the front was used no more than δ before one behind it. |
| StoreModel.ExpiryWithinSkew | internal/session/store.go:174-226 | After any such run a scan evicts only sessions past their ttl and leaves none past it by more than δ; for δ = 0 it is the plain filter. |
| StoreModel.UseFindsIff | internal/session/store.go:118-140 | A lookup finds a session exactly when it or one behind it in the list is within its ttl. |
| StoreModel.FoundMeansRecent | internal/session/store.go:118-140 | Over runs with skew δ: who is found was last accessed no more than ttl plus δ ago. |
| StoreModel.RecentMeansFound | internal/session/store.go:118-140 | A session last accessed within the ttl of every clock since, neither deleted nor behind more other accessed sessions than the store holds, is found. |
| StoreModel.RecentMeansFoundWithinSkew | internal/session/store.go:118-140 | Over runs with skew δ it is enough that the last access is within ttl less δ. |
| StoreModel.WithinTtlCanBeLost | internal/session/store.go:118-140 | A run in which a lookup with a clock one ahead evicts a session that the next lookup, within its ttl, does not find. |
| StoreModel.NewDropsAtMostTheBack | internal/session/store.go:76-104 | A new session goes to the front, and at most the back one of the live sessions is evicted for it. |
| StoreModel.RunIsBoundedLru | internal/session/store.go:195-206 | Over every run the store stays within its limit, is ordered by last access, and holds a session just created. |
| StoreModel.OpenXorClosed | internal/session/store.go:228-236 | A created session is in the store or closed, never both, and never reopens. |
| Stores.Store.DeleteElem | internal/session/store.go:228-236 | List, map and closed flag change together; exactly the sessions in the map stay open. |
| Stores.Store.EvictExpiredLocked | internal/session/store.go:208-226 | Leaves the list the early-stopping scan describes. |
| Stores.Store.EvictOverLimitLocked | internal/session/store.go:195-206 | Cuts the list to the limit from the back. |
| Stores.Store.NewSession | internal/session/store.go:67-104 | The new session is fresh, open, empty, in front and still in the store after both evictions; sessions past their ttl at the back are gone, those in front of a live one stay as far as there is room. |
| Stores.Store.Get | internal/session/store.go:118-140 | Sessions past their ttl at the back are gone and not found; a session with a live one at or behind its position is found, moved to the front and stamped. |
| Stores.Store.MoveToFront | internal/session/store.go:137-138 | Stamps one element and moves it to the front, the rest keeping its order. |
| Stores.Store.Delete | internal/session/store.go:142-149 | Removes and closes exactly that session. |
| Stores.Store.CollectSessions | internal/session/store.go:152-164 | Every session of the store is collected, in list order, and all are open. |
| Stores.PruneAll | internal/session/store.go:166-172 | The key leaves every collected session still open; other keys, their order and closed sessions stay as they were. |
| Stores.Store.PruneSkill | internal/session/store.go:151-172 | Collecting and pruning with nothing in between takes the key from every open session ever made and leaves all else as it was. |
| Identifiers.ScanIdLongest | internal/catalog/artifact.go:148-168 | The scan takes the longest prefix that is an identifier. |
| Identifiers.ScanIdentifier | internal/catalog/artifact.go:148-168 | The loop computes that scan, and its closing validity check cannot fail. |
| Identifiers.IsValidSkillArgumentName | internal/catalog/artifact.go:170-189 | Accepts exactly a letter or underscore followed by letters, digits and underscores. |
| DollarPass.TokenizeSound | internal/catalog/artifact.go:92-122 | Putting the tokens back together gives the text. |
| DollarPass.TokenizeCanonical | internal/catalog/artifact.go:92-122 | Tokens are maximal: no reference could be longer and no escape is missed. |
| DollarPass.TokenizeUnique | internal/catalog/artifact.go:92-122 | There is only one such reading of a text. |
| DollarPass.RenderDollar | internal/catalog/artifact.go:83-125 | The byte loop renders token by token, so inserted values are not scanned again; used and unknown names are exactly the declared and undeclared references. |
| TwoPasses.DollarReads | internal/catalog/artifact.go:106-122 | A reference is replaced by its value or, undeclared, left as it stands, and its name is met; what follows is read on from there. |
| TwoPasses.DollarUnescapes | internal/catalog/artifact.go:93-98 | An escaped dollar sign loses its backslash and starts no reference. |
| TwoPasses.DollarLeaves | internal/catalog/artifact.go:99-111 | A dollar sign without a name and a backslash without a dollar sign stay. |
| BracePass.MatchBraceIff | internal/catalog/artifact.go:11 | A match begins here, with this name and this rest, exactly when the text is a placeholder of the regular expression with that name followed by that rest. |
| BracePass.RenderBraces | internal/catalog/artifact.go:127-146 | Leftmost matches are replaced one after the other, replacements are not looked at again; used and unknown names are the matched ones, declared or not. |
| TwoPasses.BracesRead | internal/catalog/artifact.go:127-146 | A placeholder in braces is replaced by its value or, undeclared, left byte for byte, and its name is met. |
| TwoPasses.BracesLeave | internal/catalog/artifact.go:127-146 | Where no placeholder in braces begins, the byte is copied and the pass goes on behind it. |
| TwoPasses.AgreeWithoutNewHoles | internal/catalog/artifact.go:66-70 | With inserted values non-empty and brace-free, the two passes are one simultaneous substitution if the dollar pass opens no placeholder that was not there. |
| Regions.NewHoleHasRegion | internal/catalog/artifact.go:69-70 | For values without white space, a placeholder that the dollar pass opens comes from a region: braces around one run of identifier bytes and declared references, with a reference in it and no digit in front. |
| Regions.HoleIsMet | internal/catalog/artifact.go:127-146 | Placeholders of a text never overlap, so the brace pass meets every one. |
| Regions.SimultaneousIff | internal/catalog/artifact.go:66-70 | For a body and a set of declared names: the two passes give the text and names of one simultaneous substitution for all values that are non-empty and free of braces and white space, exactly when the body has no region. |
| LooseRegions.NoNewHolesIff | internal/catalog/artifact.go:66-70 | For a body and a set of declared names: no non-empty, brace-free values let the dollar pass open a placeholder that was not there, exactly when no `{{` is followed by literals and declared references that finish a placeholder once each reference stands for white space or for a letter. |
| LooseRegions.TwoPassesAreOne | internal/catalog/artifact.go:66-70 | Under that condition the two passes are one simultaneous substitution, in text and names, whatever white space the values hold. |
| Rendering.RenderingIsSimultaneous | internal/catalog/artifact.go:35-81 | Under either condition a body is rendered, and unknown placeholders reported, as by one pass over the original text. |
| Rendering.ReferenceBetweenBraces | internal/catalog/artifact.go:69-70 | `{{$x}}` with the name y as value of x: y's value appears instead of `{{y}}`, so unless that value is `{{y}}` itself the passes disagree with one substitution. |
| Rendering.BracesInValue | internal/catalog/artifact.go:69-70 | A value `{{y}}` is itself rendered, with the same disagreement. |
| Rendering.EmptyValue | internal/catalog/artifact.go:69-70 | An empty value joins the braces on its two sides into a placeholder, with the same disagreement. |
| Rendering.DeclaredMeans | internal/catalog/artifact.go:40-64 | A name is declared exactly when some argument has it after trimming and it is valid; its value is the supplied one if there is one, even an empty one, and else the default of the first such argument. |
| Rendering.DeclaredArguments | internal/catalog/artifact.go:40-64 | The loop over the arguments computes those values. |
| Rendering.RenderSkillBody | internal/catalog/artifact.go:35-81 | The applied arguments are the declared names, each with the supplied value or else the default of the first argument of that name; the text is that of both passes with them, and the unknown names of both come in strict byte order. |
| Utf8.TruncateIsLongest | document.go:790-799 | Truncation returns the longest valid prefix within the maximum, at most three bytes short of it for valid text (section 4 of RFC 3629); everything if it fits or no maximum is set. |
| Utf8.TruncateValidUTF8 | document.go:790-799 | The loop ends and computes that prefix. |
| Utf8.BoundaryNearby | document.go:790-799 | In valid text a character boundary lies at most three bytes to the left of any position. |
| Utf8.ValidIff | document.go:56-60 | Text is valid exactly when it encodes a sequence of Unicode scalar values by the table in section 3 of RFC 3629. |
| Text.TrimSpaceCorrect | document.go:371-375 | Trimming gives a stretch of the text without white space at its ends, and the text itself exactly when it had none there. |
| Text.TrimSpaceCuts | document.go:371-375 | Around what trimming returns there were white space characters and nothing else. |
| Text.TrimAround | document.go:371-375 | White space put around a trimmed text is what trimming takes away. |
| Sorting.Sort | internal/catalog/promptxml.go:33-39 | A permutation of its input in which nothing stands after something greater. |
| Sorting.OrderedUnique | internal/catalog/promptxml.go:33-39 | If elements that compare equal are equal there is one sorted arrangement. |
| Sorting.LessMeans | internal/catalog/promptxml.go:33-39 | One string is less than another exactly when after a common beginning it ends or has the lesser byte. |
| Prompt.TrimInlineIsFlat | internal/catalog/promptxml.go:110-116 | A flattened field has no line end of any kind. |
| Prompt.TrimInlineMeans | internal/catalog/promptxml.go:110-116 | A field shows its text byte for byte, without the white space around it and with one space for each line end inside, of whatever kind. |
| Prompt.BlockReadBack | internal/catalog/promptxml.go:32-76 | A line reader recovers from the block exactly the entries written, whatever the fields hold: none can forge a separator, a label or the end. |
| Prompt.AvailableSkillsPrompt | internal/catalog/promptxml.go:32-76 | The text is the block of the items sorted by name and location and reads back as them: each with its own name, its location and its description where it has them; the input array is not written. |
| Prompt.BlockIsDetermined | internal/catalog/promptxml.go:33-39 | With distinct (name, location) pairs the block does not depend on the order of the input. |
| DocumentValidity.ParserOutputIsValidIff | document.go:45-165 | A parsed document passes validation exactly when its first heading fits; always its lists are bounded and without repetition, its strings trimmed and bounded, its body valid UTF-8 without NUL. |
| DocumentValidity.HeadingCutAfterSpace | document.go:137-153 | Content accepted by the parser whose first heading is longer than 256 bytes with a space as the 256th gives a document that does not pass validation. |
| DocumentValidity.ArgumentsFromOk | document.go:411-522 | Parsed arguments are at most 64, validly and differently named, with texts within 4096 bytes. |
| DocumentValidity.TagsFromOk | document.go:562-648 | Parsed tags are at most 64, non-empty, trimmed, within 128 bytes and different. |
| DocumentValidity.NormalBodyClean | document.go:127-129 | Normalising line ends keeps the body valid UTF-8 without NUL. |
| DocumentValidity.BodyTextClean | document.go:309-349 | What follows the frontmatter of clean content is clean, with or without a byte order mark. |
| DocumentValidity.DisplayNameOkIff | document.go:137-153 | The display name passes validation exactly when the first heading fits. |
| DocumentMeaning.SplitMeans | document.go:309-349 | On any text given by its lines: the first has to open the frontmatter, which goes on to the first line of three dashes or three dots; everything after that line is body, and without such a line it is unterminated. |
| DocumentMeaning.ParseMeans | document.go:45-165 | Exactly which contents are accepted, and each field of the document by the decoded frontmatter and the text after it, byte order mark or not: trimmed name and description, insert with its default, display name. |
| DocumentMeaning.ArgumentsMean | document.go:411-522 | The arguments are what the items give, plain strings and mappings, in their order, the first of each valid name; and all of these unless sixty-four are kept. |
| DocumentMeaning.TagsMean | document.go:562-648 | The tags are what the string items give when trimmed, in their order, the first of each; and all of these unless sixty-four are kept. |
| DocumentMeaning.FirstHeadingMeans | document.go:762-770 | The heading is the text of the first heading line, wherever it stands, and there is one exactly when there is such a line. |
| DocumentMeaning.NormalBodyMeans | document.go:127-129 | The parsed body has the lines of the text, each ended by a newline whatever ended it before, without the newlines in front. |
| DocumentMeaning.BomIsIgnored | document.go:67-71 | A byte order mark in front changes nothing. |
| DocumentRoundTrip.SplitGivesBackIff | document.go:309-349 | The split of a printed document returns the encoded frontmatter and the rest exactly when no frontmatter line reads as a fence. |
| DocumentRoundTrip.ArgumentsBack | document.go:244-259 | Parsing printed arguments gives the arguments back. |
| DocumentRoundTrip.TagsBack | document.go:261-265 | Parsing printed tags gives the tags back. |
| DocumentRoundTrip.PropertiesStable | document.go:234-265 | Setting the known fields on a frontmatter read back changes nothing. |
| DocumentRoundTrip.MarshalThenParse | document.go:223-307 | A printed document is parsed exactly when a heading the printer added is valid UTF-8 without NUL; it then has its name, description, insert, arguments, tags and frontmatter, and the printed body with line ends normalised: with a final newline and nothing else changed, unless that heading held a carriage return. |
| DocumentMeaning.UnknownFieldsStay | document.go:218-265 | The frontmatter that comes back from printing and parsing has every unknown field as it was and no other, and the known fields say what the document says. |
| DocumentMeaning.MarshalMeans | document.go:223-307 | What is printed: frontmatter with all unknown fields kept, and the body, ended by a newline, under a heading with the display name exactly when the body has none and the display name is neither empty nor the name. |
| DocumentRoundTrip.DisplayNameBackIff | document.go:277-287 | A display name printed as a heading is parsed back unchanged exactly when it holds neither newline nor carriage return. |
| DocumentRoundTrip.CanonicalFormIff | document.go:218-307 | Printing, parsing and printing again gives the same bytes exactly when an added heading is valid text without a carriage return and the first heading of what is printed fits. |
| DocumentRoundTrip.CutHeadingIsNotCanonical | document.go:137-153 | A document whose heading does not fit is printed and parsed to one that does not pass validation and cannot be printed. |
| DocumentRoundTrip.ReturnIsNotCanonical | document.go:277-294 | A document whose display name holds a carriage return and is printed as a heading is parsed with a newline in its place, and printed differently. |
| DocumentRoundTrip.CanonicalFormCanFail | document.go:218-307 | One document of each failing kind, with a codec that meets every assumption made here. |
| Documents.SplitSkillDocumentFrontmatter | document.go:309-349 | The line loop computes the split, with both errors. |
| Documents.ParseSkillDocumentArguments | document.go:411-522 | The loop keeps the arguments the specification admits, up to 64. |
| Documents.ParseSkillDocumentTags | document.go:562-648 | The loop keeps the tags the specification admits, up to 64. |
| Documents.FirstSkillDocumentHeading | document.go:762-770 | The scan finds the first heading line. |
| Documents.ValidateSkillDocument | document.go:650-723 | Accepts exactly the valid documents. |
| Documents.ParseSkillDocument | document.go:45-165 | Computes the specified document or the first error in the source's order; its fields are what the content says. |
| Documents.MarshalSkillDocument | document.go:223-307 | Computes the specified text or the first error; unknown frontmatter fields are kept. |

## Left out

- The YAML library: an abstract pair of functions. The round-trip theorems assume of the document at hand that decoding its trimmed encoding, with one line end, gives the encoded properties, and that the encoding is valid UTF-8 without NUL and without a line that reads as a fence; typed and untyped lists of the same values encode alike.
- NormalizeSkillInsert: an abstract function on strings (Unicode lower-casing is not modelled), assumed to recognise the two values the printer writes.
- Frontmatter maps with keys that are not strings, and the difference between absent, nil and empty lists.
- Warnings and the wording of errors; several error values are one where only the wording differs.
- SHA-256 and UUIDs: the short hash is an arbitrary function to eight hexadecimal digits, session ids are fresh by assumption.
- Providers: Index and LoadBody are arbitrary answers; the file-system provider, toolRead, toolRunScript and the tool registry are not modelled.
- Scheduling: which load finishes and when is arbitrary; the theorems say who has to close a channel, not that it happens.
- Cancellation of a caller's context, except as an outcome of a load or of a wait.
- Sessions.Session.ActivateKeys: others are whole operations between its critical sections, and handles are the keys they stand for; the finer interleaving, with the catalog moving inside activeHandlesLocked, is in ActivationProtocol.
- Catalog entries and LRU elements are values in a map and a sequence; pointer identity of entries is represented by registration numbers and channel numbers, the doubly linked list by its order.
- The 64-bit wrap-around of stateVersion and of time differences: both are unbounded integers.
- LooseRegions.TwoPassesAreOne: one direction only, because a new placeholder whose name is undeclared and stands in another placeholder of the body makes no difference to text or names; `LooseRegions.NoNewHolesIff` is exact about new placeholders.
- The order of items with equal name and location, which sort.Slice leaves open.
- ActiveSkillsPrompt: bodies are raw text that may hold the separator, so no reader exists.
- Skill listing and prompt filters, option builders, nil and context checks: they would only add easy members.
