# Sanctuary stage controller, modelled in Dafny

This project models the stage controller of a small personal web app. The
controller gates the experience behind a shared password and moves the visitor
through four stages: `GATE`, `INTRO`, `SANCTUARY` and `FAREWELL`.

- The password is compared, ignoring letter case, with two fixed keys. A match
  unlocks the `Aliya` role or the `Admin` role.
- An unlocked session is saved as the JSON record `{mode}` under the storage key
  `sanctuary_session_v1`. It is restored at the next start.
- Before Aliya enters the introduction, the controller counts today's
  `Heart Sent` entries in an activity log.

The model is purely functional. Every handler is one function from state to
state. The screens' callbacks are events. These are delivered only while the
screen that owns them is mounted.

| file | module | models |
|---|---|---|
| types.dfy | `Types` | `UserMode` and the in-memory mode value, which may be any truthy value restored from storage |
| access.dfy | `Access` | the two keys and the case-insensitive resolver |
| metric.dfy | `Metric` | log entries, the today's-hearts filter and its count |
| session.dfy | `Session` | key-value storage, the serialized record, and the three-way parse outcome |
| controller.dfy | `Controller` | controller state, startup restore, unlock handler (atomic and statement by statement), and callbacks |
| view.dfy | `View` | render-time dispatch from stage to screen |
| machine.dfy | `Machine` | events, the step function, runs of events, the reachable-state invariant, and end-to-end scenarios |

Some inputs are abstract:
- `parse` is an abstract function from the stored text to `ParseError`, `WithMode(v)` or `WithoutMode`.
- Each log entry carries its type tag and the local calendar day of its timestamp. That day is `None` when the timestamp does not parse.
- `today` is an abstract day.

In three places the code behaves in ways a reader might not expect. The
model follows the code:
- A stored record that parses but has no truthy `mode` is not removed from storage. Only a payload whose parsing throws is removed.
- The session record is written after the stage change, not before the heart count.
- Failure of the log fetch is not turned into a count of 0. The code has no such handling.

## Model

| member | source | states |
|---|---|---|
| `Types.ModeNameInjective` | types.ts:3 | the two role names are distinct, so a stored name identifies its role |
| `Access.LoweredKeys` | App.tsx:9-10 | the two keys lower-case to "bunnylovesme" and "aliyalovesme" |
| `Access.ToLowerIdempotent` | App.tsx:51-53 | lower-casing an already lower-cased password changes nothing |
| `Access.Resolve` | App.tsx:48-55 | Aliya exactly when the lowered password is "bunnylovesme"; Admin exactly when it is "aliyalovesme"; no role exactly when it is neither, so at most one role matches |
| `Access.ResolveIgnoresCase` | App.tsx:51-53 | passwords that differ only in letter case resolve to the same result |
| `Access.ResolveExactlyKey` | App.tsx:51-54 | a role is unlocked by a password if and only if the password equals that role's key ignoring case |
| `Metric.TodayHearts` | App.tsx:40-44 | the filtered entries all come from the log and are today's hearts; every today's heart in the log is among them |
| `Metric.HeartCount` | App.tsx:40-44 | the count never exceeds the number of log entries |
| `Metric.TodayHeartsAppend` | App.tsx:40-44 | filtering a concatenated log is concatenating the filtered parts |
| `Metric.TodayHeartsMultiset` | App.tsx:40-44 | each entry occurs in the filtered list as often as in the log if it is today's heart, and otherwise not at all |
| `Metric.HeartCountPermutation` | App.tsx:40-44 | any reordering of the log gives the same count |
| `Metric.UnparseableNeverCounts` | App.tsx:42-43 | inserting an entry with an unparseable timestamp anywhere leaves the count unchanged |
| `Metric.HeartCountSnoc` | App.tsx:40-44 | appending one entry raises the count by one exactly when that entry is today's heart |
| `Metric.CountHearts` | App.tsx:37-46 | one pass over the fetched log yields the heart count |
| `Metric.ExampleCount` | App.tsx:39-44 | three hearts today, two from yesterday and one other entry today count as 3 |
| `Session.SetItem` | App.tsx:65 | after a write the key holds the new value and every other key is unchanged |
| `Session.RemoveItem` | App.tsx:31 | after a removal the key is absent and every other key is unchanged |
| `Session.Serialize` | App.tsx:65 | the saved record is never the empty string, so a later start reads it as present |
| `Session.SerializeInjective` | App.tsx:65 | the two roles are saved as different records |
| `Controller.Startup` | App.tsx:16-35 | the initial state followed by the restore effect (`Restore`): when storage can be read, the check always ends, with no hearts counted. With a present, non-empty payload that parses to a truthy mode, the stage is SANCTUARY, that mode is restored and storage is untouched. Otherwise the stage is GATE with the default Aliya mode. Storage changes only when parsing throws, and then only the session key is removed |
| `Controller.HandleUnlock` | App.tsx:48-67 | a rejected password changes nothing. Aliya enters INTRO with today's count. Admin enters SANCTUARY with the count untouched. Every success saves exactly the role's record and leaves the other keys alone |
| `Controller.UnlockTrace` | App.tsx:57-66 | statement by statement, the record is written by the last update only, once the stage already has its final value. No stage other than the start and the target appears. INTRO never appears before the count is set. Only the Aliya path changes the count |
| `Controller.UnlockTraceEndsInUnlock` | App.tsx:57-66 | the statement-by-statement trace ends in the atomic handler's result |
| `Controller.CallbacksOnlyMoveStage` | App.tsx:77-87 | intro-complete and cancel set SANCTUARY and start-farewell sets FAREWELL; mode, count, storage and the checking flag are untouched |
| `Controller.FarewellCancelRoundTrip` | App.tsx:83-87 | from SANCTUARY, starting the farewell and cancelling it restores the state exactly |
| `View.RenderMountsStageScreen` | App.tsx:69-88 | of the fragment `Render` builds, nothing is mounted while checking; afterwards exactly one screen is mounted, the current stage's, with its inputs |
| `Machine.Step` | App.tsx:73-88 | an event does nothing while checking or from a stage other than the one whose screen owns it. From that stage: a rejected unlock does nothing; an Aliya unlock enters INTRO as Aliya with today's count; an Admin unlock enters SANCTUARY as Admin with the count kept; every accepted unlock saves exactly that role's record, leaves the other keys and the checking flag alone; intro-complete and cancel set SANCTUARY, and start-farewell sets FAREWELL, with nothing else changed |
| `Machine.DeliveredExactlyInOwningStage` | App.tsx:73-88 | an event can fire exactly when checking is over and the stage is the one whose screen owns the callback |
| `Machine.IgnoredOutsideItsStage` | App.tsx:73-88 | an event arriving while checking or from another stage changes nothing |
| `Machine.RejectedUnlockChangesNothing` | App.tsx:49-57 | a password that matches neither key leaves stage, mode, count and storage as they were |
| `Machine.StartupEstablishesInv` | App.tsx:16-35 | after startup, checking is over; the gate holds the default mode and no count |
| `Machine.StepPreservesInv` | App.tsx:57-88 | every event keeps the invariant, and INTRO is only ever held as Aliya with the record saved. Once the gate is left, no event returns to it |
| `Machine.RunPreservesInv` | App.tsx:57-88 | any run of events keeps the invariant and never returns to the gate |
| `Machine.ReachableMountsOneScreen` | App.tsx:69-88 | after startup and any events, exactly the current stage's screen is mounted |
| `Machine.SessionSurvivesReload` | App.tsx:22-65 | after a successful unlock at the gate, a reload restores SANCTUARY with the same role, without a password or a count; for Aliya this skips the introduction |
| `Machine.StartupIdempotent` | App.tsx:21-35 | a second startup on the storage the first one left gives the same state, so a removed payload stays removed |
| `Machine.AliyaJourney` | App.tsx:59-77 | from any start that stays at the gate (nothing saved, a record without a mode, or a corrupt payload), the Aliya password leads from GATE to INTRO with today's count, and intro-complete then leads to SANCTUARY |
| `Machine.FarewellThenCancel` | App.tsx:83-87 | from SANCTUARY, start-farewell and then cancel return exactly to the same state |

## Left out

- Access.Resolve: lower-casing covers ASCII letters only. JavaScript's `toLowerCase` also maps other Unicode letters, and some of them change the string length. For these two keys this changes no outcome. The only non-ASCII character that JavaScript lowers to a single ASCII letter is U+212A KELVIN SIGN, which becomes 'k', and neither key contains a 'k'. U+0130 lowers to 'i' followed by a combining dot, so it cannot match either. `Resolve` therefore decides as App.tsx:51-55 does on every password.
- The log fetch (`fetchLogs` in `utils/logger`) is not part of this model. Its result is a given sequence of entries. The code has no handling for a failed fetch. If `fetchLogs` rejects, `handleUnlock` stops after `setUserMode`: the stage stays GATE and nothing is saved. `HandleUnlock` always enters INTRO on the Aliya path, so it does not cover this outcome.
- Date parsing, `toLocaleDateString` and time zones are platform behaviour. The day of each timestamp and today's day are abstract inputs. A `Type` field that is not a string is represented as some other string.
- `JSON.parse` and `JSON.stringify` internals are left out. Parsing is a function parameter. The round-trip lemma assumes it reads back the two records `Serialize` writes.
- Storage failures are not modelled: storage is always readable and writable. In the source, `getItem` (App.tsx:22) runs outside the `try`, and `removeItem` (App.tsx:31) runs inside the `catch`. If either throws, for example when the browser blocks site data, the startup effect exits before `setCheckingSession(false)` (App.tsx:34). The checking flag then never clears and nothing is ever rendered. `Controller.Startup`'s `!r.checking`, `Machine.StartupEstablishesInv` and `Machine.ReachableMountsOneScreen` hold only when storage access succeeds. A `setItem` that throws (App.tsx:65), such as on a full quota, rejects `handleUnlock` after the stage has changed, with nothing saved. The model always saves.
- Concurrency is not modelled, and each handler is one atomic step. While an Aliya unlock awaits the log fetch, the gate stays mounted. If an Admin password is submitted in that window, the Admin unlock runs to SANCTUARY first. The Aliya unlock then resumes and ends in INTRO with mode Admin and the Aliya record stored. `Machine.Inv` rules this state out, so it holds only under the atomic-handler assumption.
- The restored mode is never validated. Any truthy value is adopted, and `ModeValue.Other` stands for a value that names neither role.
- React rendering, hooks and the screens' own content are presentational. They appear only as the `Screen` values each stage mounts.
