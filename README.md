# infinite-craft client, modelled in Dafny

This project models the `infinitecraft` Python client for the Infinite Craft pairing
API, and proves properties of that model. It covers both the current package and the
older prototype under `src/infinitecraft/`, kept apart because their rules differ.

The current package (`infinitecraft/`):

- `InfiniteCraft` client (`infinitecraft.dfy`, module `InfiniteCraft`), a class whose
  fields are the session state, an integer clock, the list of outstanding request
  timestamps (`_requests`), the discoveries storage file and the cached element lists.
  - Construction validates its arguments, may create or reset the file, and loads the cache.
  - `start`, `close` and `async with` drive a three-state session:
    never started, open, closed.
  - `_wait_for_request` takes a ticket and sleeps while the gate is throttled.
    `_done_with_request` gives the ticket back.
  - `ping` and `pair` run that request cycle. `pair` decodes the reply body and,
    with `store=True`, appends the result to the file if its name is new and rebuilds
    the cache.
  - `get_discoveries` filters the file's records. `get_discovery` looks an element up
    by name. `reset` writes the seed.
- `Element` (`element.dfy`): a frozen value with name-only equality, `None`-equality
  for falsy elements, truthiness, `str` and `repr`.
- The seed the file is reset to (`constants.dfy`).
- The response protocol's `ok` rule and `raise_for_status` (`http.dfy`).
- The `reify` descriptor (`reify.dfy`): a class over a per-instance attribute dictionary.
- The terminal colour helpers (`termcolors.dfy`): `ansi`, `rgb`, `bg_rgb`, `hex`,
  `bg_hex` and the named constants `reset`, `bold`, …, `bg_bright_white`, `lime`,
  `orange`, `dark_orange`, `bg_lime`, `bg_orange` and `bg_dark_orange`.
- The logger (`logger.dfy`):
  - level mapping;
  - console and file gates in `log`;
  - the alias methods;
  - the loop choosing the first free log file name.

The prototype (`src/infinitecraft/`):

- element (`proto_element.dfy`);
- seed and emoji cache (`proto_constants.dfy`);
- logger (`proto_logger.dfy`);
- client (`proto_infinitecraft.dfy`):
  - a two-state close;
  - type checks on `pair`;
  - a separate name→emoji cache where the first emoji written wins;
  - record-level deduplication.

Shared Python idioms are in two modules. `pytext.dfy` has `str`/`repr` of `None`,
strings, booleans and integers, with a decimal reader proved to invert `str` on
integers. `pylist.dfy` has list filtering.

Time is an integer clock: `asyncio.sleep(d)` adds `d`. A reply carries the ticks
that passed while waiting for it. The HTTP reply to a request is an input. It is
either a response (status, parsed body, latency) or a transport failure, meaning
`session.get` raised before any response existed. Both storage files are fields;
whether a file exists is a boolean argument.

In `pair`/`ping` a transport failure leaves the ticket in `_requests`. The ticket is
released only inside the `async with` block, after a response exists
(infinitecraft/infinitecraft.py:447-448, 487-488). So the ticket is not released on
every path.

Once the client is closed, `pair` and `ping` still reach the request, since they check
only for a session that was never started. The HTTP session then refuses to send and
raises `RuntimeError("Session is closed")` (infinitecraft/clients/aiohttp_client.py:79-83).
The model gives that error in place of the reply's outcome, and the ticket stays
outstanding. The prototype's `pair` calls the same HTTP session directly, after its type
checks, and fails the same way.

## Model

| member | source | states |
|---|---|---|
| PyList.Kept | infinitecraft/infinitecraft.py:605-618 | the filtered list holds exactly the elements `check` accepts, all of them when there is no check, and is no longer than the input |
| PyList.KeptAppend | infinitecraft/infinitecraft.py:614-618 | one more loop step appends the new element exactly when `check` accepts it |
| Elements.EqualsIsNameEquality | infinitecraft/element.py:111-112 | between elements `==` holds iff the names are equal |
| Elements.EqualsIsEquivalence | infinitecraft/element.py:109-114 | on elements `==` is reflexive, symmetric and transitive |
| Elements.EqualsNoneIffFalsy | infinitecraft/element.py:109-110 | an element equals `None` iff it is falsy |
| Elements.NothingEqualsNone | infinitecraft/element.py:109-110 | the all-None element is falsy and equals `None` |
| Elements.EqualityIgnoresDecoration | infinitecraft/element.py:111-112 | emoji and flag never affect equality |
| Elements.NeverEqualsNonElement | infinitecraft/element.py:111-114 | an element never equals a value without the element attributes |
| Elements.MissingFlagIsFalsy | infinitecraft/element.py:132-134 | a name and emoji without a flag give a falsy element (contrary to the docstring example) |
| Elements.Str | infinitecraft/element.py:66-69 | `str` ends with the name's text; with a non-empty emoji it starts with emoji and space, otherwise it is the name's text alone |
| Elements.StrIgnoresFlagAndEmptyEmoji | infinitecraft/element.py:66-69 | the flag never shows in `str`, and an empty emoji renders like no emoji |
| Elements.Repr | infinitecraft/element.py:82-88 | `repr` starts with `Element(name=` and ends with `, is_first_discovery=`, the flag's `repr` and `)` |
| Elements.ReprInjective | infinitecraft/element.py:82-88 | two elements have the same `repr` iff name, emoji and flag are all equal |
| PyText.UnescapeEscape | infinitecraft/element.py:84-85 | the escaped body of a string's `repr`, up to its closing quote, reads back as the string, the text after it untouched |
| PyText.StrOrNoneReprPrefixFree | infinitecraft/element.py:84-85 | no `repr` of a string or `None` is a proper prefix of another's: text starting with one determines both it and the rest |
| Elements.ReprShowsFlag | infinitecraft/element.py:82-88 | elements differing only in the flag have different `repr`s |
| Constants.SeedShape | infinitecraft/constants.py:7-28 | four records Water, Fire, Wind, Earth in order, each with an emoji and flag False |
| Constants.SeedNamesDistinct | infinitecraft/constants.py:9-24 | seed names are pairwise distinct |
| Http.RaiseForStatus | infinitecraft/abc.py:233-241 | raises iff status ≥ 400, with the status message prefix |
| Http.RaisedMessageNamesStatus | infinitecraft/abc.py:240-241 | the status can be read back from the raised message |
| Http.SuccessStatusesPass | infinitecraft/abc.py:198 | 200 and 399 pass; 400 and 500 raise |
| Reify.Reified.Get | infinitecraft/utils.py:34-43 | class access yields the descriptor; a cached value is returned unchanged with no call; otherwise `func` runs once and its value is stored under the name; no existing entry changes |
| Reify.ReadTwice | infinitecraft/utils.py:38-43 | two reads on one instance agree, and `func` ran at most once |
| Reify.ReadsArePerInstance | infinitecraft/utils.py:38-43 | reading through one instance leaves another instance's cache as it was |
| TermColors.Ansi | infinitecraft/termcolors.py:94-95 | ESC `[` … `m`, and the code reads back from the middle |
| TermColors.AnsiInjective | infinitecraft/termcolors.py:94-95 | distinct codes give distinct sequences, so every named constant is distinct from those with other codes |
| TermColors.Rgb | infinitecraft/termcolors.py:97-98 | starts ESC `[38;2;`, ends with blue and `m` |
| TermColors.BgRgb | infinitecraft/termcolors.py:106-107 | starts ESC `[48;2;`, ends with blue and `m` |
| TermColors.ForegroundIsNotBackground | infinitecraft/termcolors.py:97-107 | no foreground sequence equals a background one |
| TermColors.TrueColourInjective | infinitecraft/termcolors.py:97-107 | the three components read back from a true-colour sequence |
| TermColors.RgbInjective | infinitecraft/termcolors.py:97-107 | `rgb` (and `bg_rgb`) sequences are equal iff the components are |
| TermColors.Hex | infinitecraft/termcolors.py:100-104 | `hex(h)` is `rgb(r, g, b)` for the split h = r·65536 + g·256 + b with g and b bytes (r unbounded) |
| TermColors.BgHex | infinitecraft/termcolors.py:109-113 | `bg_hex(h)` is `bg_rgb(r, g, b)` for the same split |
| TermColors.ComponentsUnique | infinitecraft/termcolors.py:101-103 | any split h = r·65536 + g·256 + b with g and b bytes is the one the shifts and masks compute, negative h included |
| TermColors.MaskedComponentsAreBytes | infinitecraft/termcolors.py:102-103 | green and blue lie in 0..255 for every argument |
| TermColors.HexComponentsReassemble | infinitecraft/termcolors.py:101-103 | for 0 ≤ h < 2^24, red is a byte and r·65536 + g·256 + b = h |
| TermColors.HexInjectiveOn24Bits | infinitecraft/termcolors.py:100-113 | distinct 24-bit colours give distinct `hex`/`bg_hex` sequences |
| TermColors.RedUnmaskedAbove24Bits | infinitecraft/termcolors.py:101 | red exceeds 255 from h = 2^24 on |
| Logging.LogLevelOf | infinitecraft/logger.py:179-190 | an int passes through; a name maps into 1..5 |
| Logging.NamedLevels | infinitecraft/logger.py:179-190 | info 1, warning 2, error 3, critical 4, debug 5, any other name 5 |
| Logging.LevelZeroPrintsNoNamedType | infinitecraft/logger.py:167-168 | at console level 0 no named type prints |
| Logging.DefaultLevelShowsCriticalHidesDebug | infinitecraft/logger.py:167-168 | at level 4 critical prints and debug does not |
| Logging.LogFileNamesDistinct | infinitecraft/logger.py:139-144 | the candidate names "base.log", "base 1.log", … are pairwise distinct |
| Logging.FirstFreeLogFile | infinitecraft/logger.py:127-146 | the result is not on disk and is the first candidate that is not (every earlier one exists) |
| Logging.Logger.constructor | infinitecraft/logger.py:114-119 | a log file is chosen iff `logs_folder` is a non-empty string; it is free, and it is the first free candidate (every earlier candidate exists) |
| Logging.Logger.Log | infinitecraft/logger.py:148-177 | a line is printed iff `do_print` and level ≤ `log_level`; saved iff `do_save`, a log file is set and level ≤ `log_file_log_level` |
| Logging.Logger.Info | infinitecraft/logger.py:192-201 | logs at level 1 |
| Logging.Logger.Warning | infinitecraft/logger.py:214-223 | logs at level 2 |
| Logging.Logger.Warn | infinitecraft/logger.py:203-212 | same lines as `warning` |
| Logging.Logger.Error | infinitecraft/logger.py:237-249 | logs at level 3, traceback appended when an exception is given |
| Logging.Logger.Err | infinitecraft/logger.py:225-235 | same lines as `error` |
| Logging.Logger.Critical | infinitecraft/logger.py:263-275 | logs at level 4, traceback appended when an exception is given |
| Logging.Logger.Crit | infinitecraft/logger.py:251-261 | same lines as `critical` |
| Logging.Logger.Debug | infinitecraft/logger.py:277-286 | logs at level 5 |
| Logging.WithTraceback | infinitecraft/logger.py:247-248 | the message is kept as prefix; unchanged without an exception |
| InfiniteCraft.Client.Create | infinitecraft/infinitecraft.py:142-182 | negative limit → ValueError; missing file without `make_file` → FileNotFoundError; otherwise a not-started client with no tickets, store = seed if the file was missing or `do_reset`, else the file, cache = store as elements |
| InfiniteCraft.ClosedProperty | infinitecraft/infinitecraft.py:296-304 | `closed` is None iff never started and True iff closed |
| InfiniteCraft.Client.ClosedFlag | infinitecraft/infinitecraft.py:296-304 | `closed` is None iff the session was never started, True iff it is closed, False iff it is open |
| InfiniteCraft.StartTransition | infinitecraft/infinitecraft.py:380-386 | start succeeds iff never started, and then the session is open |
| InfiniteCraft.Client.Start | infinitecraft/infinitecraft.py:370-386 | applies `StartTransition`; on error the session is unchanged |
| InfiniteCraft.CloseTransition | infinitecraft/infinitecraft.py:398-404 | close succeeds iff open, and then the session is closed |
| InfiniteCraft.Client.Close | infinitecraft/infinitecraft.py:388-404 | applies `CloseTransition`; on error the session is unchanged |
| InfiniteCraft.EnterTransition | infinitecraft/infinitecraft.py:338-345 | with manual control entering changes nothing |
| InfiniteCraft.Client.AEnter | infinitecraft/infinitecraft.py:338-345 | starts unless manual control is on |
| InfiniteCraft.ExitTransition | infinitecraft/infinitecraft.py:347-352 | with manual control leaving changes nothing |
| InfiniteCraft.Client.AExit | infinitecraft/infinitecraft.py:347-352 | closes unless manual control is on |
| InfiniteCraft.LifecycleNeverGoesBack | infinitecraft/infinitecraft.py:370-404 | no sequence of start/close calls moves the session back (never started → open → closed) |
| InfiniteCraft.ClosedIsTerminal | infinitecraft/infinitecraft.py:383-401 | once closed, the session stays closed |
| InfiniteCraft.AdmittedAt | infinitecraft/infinitecraft.py:668-670 | the gate opens at the earliest time ≥ now that is not throttled |
| InfiniteCraft.WithinLimitNoWait | infinitecraft/infinitecraft.py:668 | at or under the limit nobody waits |
| InfiniteCraft.OverLimitWaitsForOldest | infinitecraft/infinitecraft.py:668-670 | over the limit a request waits until the oldest ticket is 60 ticks old |
| InfiniteCraft.ZeroLimitStillWaits | infinitecraft/infinitecraft.py:668-670 | limit 0 still waits for older tickets, although the parameter's docstring says 0 means no limit |
| InfiniteCraft.ZeroLimitAloneWaitsWindow | infinitecraft/infinitecraft.py:664-670 | with limit 0 even a lone request waits a full 60 ticks |
| InfiniteCraft.Client.WaitForRequest | infinitecraft/infinitecraft.py:650-672 | appends exactly one ticket equal to the clock and returns it; returns at `AdmittedAt`; tickets stay sorted and not in the future |
| InfiniteCraft.Client.Sleep | infinitecraft/infinitecraft.py:670 | the clock advances by the sleep |
| InfiniteCraft.RemoveFirst | infinitecraft/infinitecraft.py:687 | removes one occurrence: the multiset loses exactly one ticket |
| InfiniteCraft.RemoveFirstAt | infinitecraft/infinitecraft.py:687 | the removed occurrence is the first; the rest keep their order |
| InfiniteCraft.RemoveFirstKeepsSorted | infinitecraft/infinitecraft.py:666-687 | removing a ticket keeps the list sorted, so `_requests[0]` stays the oldest |
| InfiniteCraft.ReleaseOwnTicket | infinitecraft/infinitecraft.py:664-687 | releasing the ticket just taken restores the previous list exactly |
| InfiniteCraft.Client.DoneWithRequest | infinitecraft/infinitecraft.py:674-687 | present ticket → removed first occurrence; absent → ValueError, list unchanged |
| InfiniteCraft.ReplyOutcome | infinitecraft/infinitecraft.py:487-497 | the request succeeds iff a response arrived with status < 400, and then it is that response; a status ≥ 400 gives ClientResponseError with `raise_for_status`'s message; no response gives the transport error |
| InfiniteCraft.RequestOutcome | infinitecraft/clients/aiohttp_client.py:76-84 | on a closed session, RuntimeError "Session is closed" whatever the reply; otherwise `ReplyOutcome`; success only when a response reached the client |
| InfiniteCraft.Client.Dispatch | infinitecraft/infinitecraft.py:485-498 | gate, then release on any response before the status check; returns `RequestOutcome`; a transport failure, or any request on a closed session, leaves the ticket outstanding; the clock is the admission time plus latency, the latency counting only when a response arrived |
| InfiniteCraft.Client.Ping | infinitecraft/infinitecraft.py:420-453 | RuntimeError "not started" when never started, with tickets and clock unchanged; otherwise the latency or the error of `RequestOutcome`, the ticket released iff a response arrived, the clock at admission time plus latency; on a closed session the RuntimeError "Session is closed" with the ticket left outstanding |
| InfiniteCraft.DecodePair | infinitecraft/infinitecraft.py:500-512 | the exact sentinel gives the all-None element; any other body a truthy element carrying result, emoji and isNew |
| InfiniteCraft.SentinelMatchIsExact | infinitecraft/infinitecraft.py:500-504 | a "Nothing" reply with another emoji or flag is a real element |
| InfiniteCraft.PairResultEqualsNoneIffSentinel | infinitecraft/infinitecraft.py:500-506 | the pair result equals `None` iff the body was the sentinel |
| InfiniteCraft.Client.Pair | infinitecraft/infinitecraft.py:455-538 | RuntimeError "not started" when never started, with nothing changed; otherwise the request cycle of `Dispatch`, failing with the error of `RequestOutcome` and succeeding with `DecodePair` of the body; with `store` and a non-sentinel success, store = `StoredAfter` and both caches = store as elements; otherwise store and caches unchanged; on a closed session the RuntimeError "Session is closed", the ticket left outstanding and nothing stored |
| InfiniteCraft.ToElements | infinitecraft/infinitecraft.py:526-533 | one element per record, fields copied |
| InfiniteCraft.CacheRoundTrip | infinitecraft/infinitecraft.py:526-533 | turning the cache back into records gives the store |
| InfiniteCraft.AppendIfAbsent | infinitecraft/infinitecraft.py:709-723 | None iff the name is already stored; otherwise the store with the record appended |
| InfiniteCraft.Client.UpdateDiscoveries | infinitecraft/infinitecraft.py:689-723 | returns `AppendIfAbsent` and leaves the store as `StoredAfter` |
| InfiniteCraft.StoredAfterKeepsNamesDistinct | infinitecraft/infinitecraft.py:715-723 | after an update the name is stored, and names stay pairwise distinct |
| InfiniteCraft.FirstRecordWins | infinitecraft/infinitecraft.py:715-716 | a later record under the same name changes nothing |
| InfiniteCraft.Reset | infinitecraft/infinitecraft.py:767-773 | FileNotFoundError iff missing and not `make_file`; otherwise the seed |
| InfiniteCraft.ResetStoreIsSeed | infinitecraft/infinitecraft.py:767-773 | after a reset the store has four records with distinct names |
| InfiniteCraft.Client.Collect | infinitecraft/infinitecraft.py:605-618 | the loop's list is the file's elements filtered by `check` |
| InfiniteCraft.Client.GetDiscoveries | infinitecraft/infinitecraft.py:588-624 | returns the filtered elements; caches set to them iff `set_value` |
| InfiniteCraft.FindNamedIndex | infinitecraft/infinitecraft.py:648 | the position of the first element with the name, or the length when none has it |
| InfiniteCraft.FindNamed | infinitecraft/infinitecraft.py:648 | None iff no element has the name; otherwise the first such element |
| InfiniteCraft.NameMatchesDummyOnlyForUnnamed | infinitecraft/infinitecraft.py:645 | the as-written check `e.name == dummy` holds iff the record has no name |
| InfiniteCraft.FromFileLookup | infinitecraft/infinitecraft.py:644-646 | as written, the file lookup can only return a nameless element |
| InfiniteCraft.FromFileLookupMissesWater | infinitecraft/infinitecraft.py:644-646 | after a reset the as-written lookup of "Water" finds nothing |
| InfiniteCraft.FromFileLookupByName | infinitecraft/infinitecraft.py:644-646 | the intended file lookup: None iff the name is not stored, else an element with that name |
| InfiniteCraft.FirstKeptIsFirstNamed | infinitecraft/infinitecraft.py:644-646 | filtering on the name and taking the first hit equals `FindNamed` |
| InfiniteCraft.FromFileLookupByNameFindsWater | infinitecraft/infinitecraft.py:644-646 | the intended lookup finds the seeded Water |
| InfiniteCraft.Client.GetDiscovery | infinitecraft/infinitecraft.py:626-648 | cache branch: the first cached element with the name; file branch: the intended lookup |
| ProtoElements.EqualsIsNameEquality | src/infinitecraft/element.py:27-31 | between prototype elements `==` holds iff the names are equal |
| ProtoElements.EqualsIsEquivalence | src/infinitecraft/element.py:27-31 | reflexive, symmetric, transitive on prototype elements |
| ProtoElements.NeverEqualsNone | src/infinitecraft/element.py:27-31 | no prototype element equals `None` or any non-element, the all-None one included |
| ProtoElements.EqualityDiffersFromMainPackage | src/infinitecraft/element.py:27-31 | a flagless element equals `None` in the main package but not in the prototype |
| ProtoElements.Str | src/infinitecraft/element.py:18-22 | emoji, space and name with a non-empty emoji, else the name's text |
| ProtoElements.Repr | src/infinitecraft/element.py:24-25 | starts with `Element(name=` and ends with `, is_first_discovery=`, the flag's `repr` and `)` |
| ProtoElements.ReprInjective | src/infinitecraft/element.py:24-25 | two prototype elements have the same `repr` iff name, emoji and flag are all equal |
| ProtoElements.RendersLikeMainPackage | src/infinitecraft/element.py:18-25 | `str` and `repr` agree with the main package's |
| ProtoConstants.SeedShape | src/infinitecraft/constants.py:6-23 | four records Water, Fire, Wind, Earth, all flags False, no emoji field |
| ProtoConstants.SeedNamesDistinct | src/infinitecraft/constants.py:8-20 | seed names are pairwise distinct |
| ProtoConstants.EmojiCacheCoversSeed | src/infinitecraft/constants.py:25-30 | the emoji cache's keys are exactly the seed names |
| ProtoLogging.LevelOf | src/infinitecraft/logger.py:33-43 | a level in 1..5, and 5 iff the type is not info/warn/error/fatal |
| ProtoLogging.Log | src/infinitecraft/logger.py:33-47 | prints iff level ≤ `log_level`, the text being prefix, message and the reset code |
| ProtoLogging.Info | src/infinitecraft/logger.py:49-50 | logs as "info": shown iff `log_level` ≥ 1 |
| ProtoLogging.Warn | src/infinitecraft/logger.py:52-53 | logs as "warn": shown iff `log_level` ≥ 2 |
| ProtoLogging.Error | src/infinitecraft/logger.py:55-56 | logs as "error": shown iff `log_level` ≥ 3 |
| ProtoLogging.Fatal | src/infinitecraft/logger.py:58-59 | logs as "fatal": shown iff `log_level` ≥ 4 |
| ProtoLogging.Debug | src/infinitecraft/logger.py:61-62 | logs as "debug": shown iff `log_level` ≥ 5 |
| ProtoLogging.DefaultLevelShowsFatalHidesDebug | src/infinitecraft/logger.py:26-45 | at the default level 4 fatal prints and debug does not |
| ProtoLogging.LevelZeroPrintsNothing | src/infinitecraft/logger.py:45-47 | at level 0 nothing prints |
| ProtoLogging.ThresholdIsMonotone | src/infinitecraft/logger.py:45-47 | raising the level never hides a shown message |
| ProtoInfiniteCraft.Client.Create | src/infinitecraft/infinitecraft.py:47-101 | missing discoveries file, then missing emoji file → FileNotFoundError; a non-Element class → TypeError; otherwise not closed, both files reset iff `do_reset`, caches = joined records |
| ProtoInfiniteCraft.Client.Close | src/infinitecraft/infinitecraft.py:121-130 | the first close closes; a second raises RuntimeError |
| ProtoInfiniteCraft.Client.AExit | src/infinitecraft/infinitecraft.py:117-119 | leaving `async with` always closes |
| ProtoInfiniteCraft.DecodePair | src/infinitecraft/infinitecraft.py:169-181 | None iff the body is the sentinel; otherwise the body's three fields |
| ProtoInfiniteCraft.PairOutcome | src/infinitecraft/infinitecraft.py:154-181 | TypeError for a non-element first, then second, argument; then RuntimeError "Session is closed" on a closed session; then the transport error, or ClientResponseError with the status for a status ≥ 400; otherwise `DecodePair` of the body (None on the sentinel, else the body's three fields); a stored result iff both are elements, the session is open, the request succeeded and the body is not the sentinel |
| ProtoInfiniteCraft.Client.Pair | src/infinitecraft/infinitecraft.py:138-215 | returns `PairOutcome` for the session's state; on a stored result, emoji map and records updated and caches = joined records; otherwise nothing changes |
| ProtoInfiniteCraft.AddEmojiIfAbsent | src/infinitecraft/infinitecraft.py:372-381 | None iff the name has an emoji; otherwise the map with name→emoji added |
| ProtoInfiniteCraft.Client.UpdateEmojis | src/infinitecraft/infinitecraft.py:358-381 | returns `AddEmojiIfAbsent`; the file is `EmojisAfter` |
| ProtoInfiniteCraft.FirstEmojiWins | src/infinitecraft/infinitecraft.py:372-376 | the first emoji written under a name stays; keys only grow; other entries unchanged |
| ProtoInfiniteCraft.AppendRecordIfAbsent | src/infinitecraft/infinitecraft.py:329-343 | None iff this exact record is stored; otherwise appended |
| ProtoInfiniteCraft.Client.UpdateDiscoveries | src/infinitecraft/infinitecraft.py:315-343 | returns `AppendRecordIfAbsent`; the file is `RecordsAfter` |
| ProtoInfiniteCraft.RecordsAfterKeepsNoRepeats | src/infinitecraft/infinitecraft.py:335-338 | the record is stored afterwards and records never repeat |
| ProtoInfiniteCraft.SameNameOtherFlagIsStoredAgain | src/infinitecraft/infinitecraft.py:329-338 | the same name with another flag is appended, so two records share a name |
| ProtoInfiniteCraft.Joined | src/infinitecraft/infinitecraft.py:204-210 | name and flag from the record; emoji from the map, None when the name has none |
| ProtoInfiniteCraft.JoinAll | src/infinitecraft/infinitecraft.py:204-210 | one joined element per record, in order |
| ProtoInfiniteCraft.PairedNameShowsFirstEmoji | src/infinitecraft/infinitecraft.py:188-210 | after a pairing, elements under the result's name show the first emoji ever stored for it, not necessarily the reply's |
| ProtoInfiniteCraft.Reset | src/infinitecraft/infinitecraft.py:406-416 | FileNotFoundError for a missing discoveries file, then a missing emoji file; otherwise both seeds |
| ProtoInfiniteCraft.ResetJoinsEveryEmoji | src/infinitecraft/infinitecraft.py:412-416 | after a reset every seeded element has an emoji |
| ProtoInfiniteCraft.Client.Collect | src/infinitecraft/infinitecraft.py:269-282 | the loop's list is the joined records filtered by `check` |
| ProtoInfiniteCraft.Client.GetDiscoveries | src/infinitecraft/infinitecraft.py:255-288 | returns the filtered elements; caches set to them iff `set_value` |

## Left out

- HTTP transport: the aiohttp client, the mock FastAPI server, the request parameters and the literal header block. A reply is an input. The response accessors of the protocol (infinitecraft/abc.py:139-218) are the fields of `Http.Response`.
- asyncio scheduling: other coroutines touching `_requests` between await points are not modelled. Each operation runs alone.
- `time.monotonic` floats: the clock is an integer. `ping`'s latency is the reply's own latency field.
- File system and JSON: reading, writing, encodings, indentation, `check_file` and `os.makedirs`. Records whose keys are missing or extra, and other JSON value types, are not modelled. Python's `0 == False` in record comparison is not modelled either.
- Reply bodies with missing or extra keys: the body is the typed `{result, emoji, isNew}` record.
- Logger output formatting: the timestamp, colour prefix and traceback text are not modelled, nor the printing itself. The traceback is an input string. Output is recorded as lines.
- `debug=True` raising the logger's level in the client constructor, and the logger's optional prefix callable: the level is a constructor argument.
- `os.path.join` with an absolute file name (which discards the folder): file names are relative names built from the logger name and time stamp.
- `repr` escapes of non-printable characters: only backslash, the quote, newline, carriage return and tab are escaped.
- `check` callables are total, side-effect-free functions. A coroutine passed as `check` in the prototype is not modelled.
- The aliases `stop`, `merge` and `combine` (both packages): each calls the modelled method with the same arguments.
- The prototype's `get_discovery(set_value=...)`: it is `get_discoveries` without a check.
- Prototype `__aenter__`: it only logs.
- `__str__`/`__repr__` of the client classes: they only format fields.
- The client constructor's `element_cls` and `session_cls` parameters: elements are always the modelled `Element`.
- The prototype's constructor arguments: a prototype element is a datatype value built from its three fields.
- InfiniteCraft.Client.GetDiscovery: the `from_file=True` branch uses the corrected lookup `FromFileLookupByName`, not infinitecraft/infinitecraft.py:644-646 as written. The code as written is `FromFileLookup` (see Findings), which returns only nameless records, so it misses "Water" on a store just reset.
- `aiohttp.ClientSession` is not part of this model. Its closed-session error is modelled as `RuntimeError("Session is closed")`; its other internals are not.
- The constant `empty` (infinitecraft/termcolors.py:123): it is the empty string, with nothing to state about it.
- Prototype HTTP errors: `ClientResponseError` carries the status, not aiohttp's own message text.

## Findings

| source | as written | input that shows it | evidently intended | confidence | as-written member | corrected member |
|---|---|---|---|---|---|---|
| infinitecraft/infinitecraft.py:644-646 | `get_discovery(name, from_file=True)` filters with `e.name == dummy`, comparing a string with an element; that holds only when the record has no name | a store just reset to the seed, `name = "Water"`: the lookup returns None although Water is the first record | return the first record in the file whose name is `name`, as the cached branch does | high, not executed | InfiniteCraft.FromFileLookup (with InfiniteCraft.FromFileLookupMissesWater) | InfiniteCraft.FromFileLookupByName (with InfiniteCraft.FromFileLookupByNameFindsWater) |
