# Orbiter: a verified model of the moving-speaker controller

The controller receives movement commands over TCP and key codes over infrared, and turns them into moves of a
motor that carries a loudspeaker around a rail. Two threads push into queues while a periodic tick drains them,
keeps the last host message, decodes it, queues it or clears the queue for it, and carries out at most one command;
then it looks at the remote control. This project models that pipeline in Dafny and proves what it guarantees over
whole runs, for every interleaving of the producers with the tick.

## Layout

| file | contents |
|---|---|
| `Options.dfy`, `Selections.dfy` | results that may fail; increasing lists of positions |
| `Numerals.dfy`, `Protocol.dfy`, `Toolbox.dfy` | the fixed-width record: numerals, decoder, inverse encoder, and the decoder in place |
| `Position.dfy`, `ControlPanel.dfy` | degrees to motor counts; angle, target and digit entry |
| `Motor.dfy` | the motor's position profile and the requests made of it |
| `Remote.dfy` | key recognition and debouncing |
| `Inbox.dfy`, `Movements.dfy`, `Pilot.dfy` | host message queue, movement queue and gate, and what moves the speaker |
| `Scheduler.dfy` | the controller as a machine of atomic steps and its invariant |
| `Arrivals.dfy`, `Theorems.dfy`, `Profiles.dfy` | what the producers sent, and the results over whole runs: messages, commands, keys, position, motor |
| `Rounds.dfy`, `Recoveries.dfy` | what the outside world does round by round and the steps it amounts to; what initialises the device |
| `Orbiter.dfy` | the program itself as a class that updates its variables in place, proved to follow the machine |
| `IrSend.dfy`, `MusicScale.dfy` | the packet builder and the pitch tables |

## How it fits together

`Scheduler.Step` takes one atomic step: a push by either producer, the start of a tick, one message taken by the
drain, the rest of a tick once the drain has seen the queue empty, or the idle function. A step whose turn it is not
changes nothing, so any sequence of events is a run and `Scheduler.Reachable` covers all interleavings.
`Theorems.LatePushCommutes` shows that treating the rest of the tick as one step hides nothing. `Arrivals` ties the
histories below to the events themselves, so the results speak of what the producers pushed. The components carry
histories beside the program's variables: every message pushed and its fate, every command accepted and its fate,
what opened the gate for each command carried out, every operation on the position, every request to the motor.

`Orbiter.Controller` has the program's own variables, queues and loops. Its `Valid` says that they are, at every
moment, those of the run described by the object's own trace of steps; each method keeps that and states the steps it
took. So the theorems about runs are theorems about the object. `MainLoop` takes the rounds of the outside
world, states that the trace grows by exactly the steps they amount to (`Rounds.Script`), and draws the results about
texts heard, recoveries, commands and keys as postconditions.

Speeds and angles are exact hundredths, and counts are exact: the formula of `calcTargetPosition` is the reduced ratio
3604480/261 counts a degree, truncated (`Position.TargetIsFormula`).

## Where the program differs from what is written about it

- The record is 28 characters wide but the decoder steps by 27 (`Toolbox.cpp:36`, `Toolbox.cpp:53`). Consecutive
  records must share a character (`Protocol.StrideSharesFlag`), and a second record written after a full first one is
  always refused (`Protocol.BackToBackRejected`). The length test of `bCheckForValidity` never decides anything
  (`Protocol.LengthTestImplied`). The example command in `readme.md` has 15 characters, fewer than any record
  `Protocol.DecodeLocal` lets through.
- The separators of a record are not looked at, and white space or a sign in a field is read as `std::stoi` reads it
  (`Protocol.DecodeWritten`), so a speed or an angle may be negative (`Protocol.NegativeFieldsDecoded`).
- The description allows directions 0, 1 and 2; the decoder accepts any digit, and 3 to 9 move by the previous angle
  again (`Pilot.UnknownDirectionRepeats`). The error bound accounts for those moves separately.
- A refused message has both queued flags false, so it discards every pending movement
  (`Theorems.RejectedMessageFlushes`). Its tick still calls the motor if PLAY or STOP is newly pressed in it
  (`Theorems.RejectionWithPlayMoves`).
- Octaves double the pitch except out of the lowest one, whose reference is 22.5 where 27.5 would be half of 55
  (`MusicScale.OctaveDoubles`: it holds if and only if the lower note is not in the lowest octave).
- The ramps of the motor profile are nominal if and only if the last step that wrote them was a recovery or a failed
  profile read that left nominal values behind (`Profiles.RampsNominalIff`, `Motor.RampsNominalIff`); a single failed
  read can lose them (`Motor.FailedReadLosesRamps`).
- A recovery resets the velocity, so the velocity is the last moving command's if and only if no recovery came after
  it or it asked for the velocity that a recovery restores (`Profiles.VelocityFollowsIff`).
- The velocity is twice the speed's hundredths if and only if that is an `unsigned int`; a negative speed, which the
  decoder lets through, has no defined velocity (`Motor.LastSpeedWins`).
- The loops that clear the digits run one cell past the three that exist (`main.cpp:370`, `main.cpp:375`); the model
  clears the three.

## Model

| member | source | states |
|---|---|---|
| Scheduler.Reachable | main.cpp:196-450 | every state the controller can reach, under any interleaving of pushes, drain iterations, ticks and recoveries, satisfies the invariant of all components |
| Arrivals.PushedAreMessages | main.cpp:106-122 | the history of the inbox is exactly the messages the TCP thread pushed |
| Arrivals.AcceptedAreChosen | main.cpp:208-222 | the accepted commands are exactly, tick by tick, the decoding of the newest message pushed since the tick before, if there is one and it is not empty |
| Scheduler.DrainGoesOn | main.cpp:209-215 | a tick does not get past its drain while a host message waits |
| Arrivals.TextsAreHeard | main.cpp:84-104 | the texts the ticks worked on are, tick by tick, the newest codes the infrared thread pushed since the previous tick began |
| Arrivals.TickHearsNewestCode | main.cpp:196-205 | from any state, a tick works on the newest infrared code pushed since the previous tick began, and leaves none behind |
| Theorems.EndToEnd | main.cpp:106-268 | commands carried out are an in-order subsequence, each used at most once, of the decodings of the non-empty messages the host pushed in the run |
| Theorems.MessagesConserved | main.cpp:209-222 | every pushed message is exactly one of queued, held by the drain, superseded in its tick, empty, or accepted; accepted if and only if it was the last taken in its tick and not empty (the last pushed before it ended, by Arrivals.AcceptedAreChosen) |
| Theorems.CommandsConserved | main.cpp:222-257 | every accepted command is exactly one of queued, carried out in order, or flushed, and a flushed one was displaced by a later command that asked not to be queued |
| Theorems.UnqueuedAlwaysCarriedOut | main.cpp:227-257 | in every reachable state each accepted command not to be queued has been carried out: none is ever waiting or flushed |
| Theorems.QueuedTrafficIsFifo | main.cpp:222-226 | if every accepted command is to be queued, those carried out followed by those queued are exactly those accepted |
| Theorems.FlushBarrier | main.cpp:227-257 | a command not to be queued is carried out in its own tick whatever the motor reports, leaves nothing queued, and nothing accepted before it is carried out after it |
| Theorems.ForcedAtMostOnce | main.cpp:252-268 | in a whole run at most one command is let through with the target not reached and no skip in force, and the override is unspent if and only if none was |
| Theorems.OneDispatchPerTick | main.cpp:252-268 | exactly when a step carries out a command, the override counting only while no command was forced, and never more than one |
| Theorems.DispatchesWithinTicks | main.cpp:598-604 | no more commands are carried out than ticks finish |
| Theorems.Progress | main.cpp:252-257 | while nothing is accepted, the commands carried out are the head of the queue in order: one per ready tick plus one if a command was forced, as far as the queue goes |
| Theorems.RejectedMessageFlushes | main.cpp:227-235 | a refused non-empty message empties the queue, is used up and makes no motor call: the log and the position change by exactly what a newly pressed key calls for, and the motor is left alone if and only if the key is not newly pressed or is neither PLAY nor STOP |
| Theorems.RejectionWithPlayMoves | main.cpp:358-368 | a tick that refuses a message and still moves the motor: PLAY newly pressed in it |
| Theorems.PositionCoherent | main.cpp:156-162 | in every reachable state: the target, digit cursor and angle as functions of what was done, the bound on the angle, and when its target fits an int |
| Theorems.KeysDebounced | main.cpp:358-431 | the keys acted on are those of the newest codes before each tick with repetitions removed, and never repeat themselves |
| Theorems.MotorTraffic | main.cpp:184-194 | all requests but recoveries are determined by the commands and keys acted on, each command move directly follows its speed, and the accumulated truncation error is bounded per aiming command |
| Theorems.PlayRepeatsCommand | main.cpp:366-368 | in the tick of a moving command, PLAY issues that command's relative move a second time, directly after it |
| Theorems.PlayAndStop | main.cpp:366-379 | newly pressed, PLAY moves by the target the tick's movement left and clears the digits and their cursor; STOP halts and clears the digits only |
| Theorems.InitialisedFirst | main.cpp:571-572 | in every run the log starts with the initialisation and the profile 10000, 1000, 2000 |
| Recoveries.UpkeepLogged | main.cpp:166-171 | in every run the device is initialised once at the start, once for each idle event with error code 0x34000007 and once for each with device errors, and for nothing else |
| Profiles.VelocityLastWritten | cmaxonmotor.cpp:256-295 | in every run the velocity is the one written last, 10000 by a recovery or twice the speed's hundredths by a moving command, and 10000 before either |
| Profiles.RampsLastWritten | cmaxonmotor.cpp:256-295 | in every run the ramps are those written last, 1000 and 2000 by a recovery or the leftovers of a moving command's failed profile read |
| Profiles.VelocityFollowsIff | main.cpp:166-171 | the velocity is the last moving command's if and only if no recovery came after it or it asked for what a recovery restores |
| Profiles.RampsNominalIff | cmaxonmotor.cpp:279-295 | the ramps are nominal if and only if the last step to write them was a recovery or left nominal values behind |
| Profiles.RampsStayNominal | cmaxonmotor.cpp:256-295 | while profile reads succeed, acceleration 1000 and deceleration 2000 hold in the profile and in everything ever written, through commands, keys and recoveries |
| Profiles.LastStepIsLast | main.cpp:598-604 | "last" means that no later step of the run is of that kind |
| Profiles.VelocityFollowsCommands | cmaxonmotor.cpp:279-292 | so without recoveries the velocity is always twice the last moving command's speed in hundredths, 10000 before any |
| Theorems.LatePushCommutes | main.cpp:209-215 | pushes at any point of the rest of a tick, before the message is interpreted, before the movement part or before the infrared part, have the effect of the same pushes just after it |
| Inbox.CloseValid | main.cpp:208-222 | ending a drain keeps the inbox invariant: only the last message taken in a tick can be accepted, and the accepted commands are the decodings in order |
| Inbox.TakeValid | main.cpp:209-215 | taking a message keeps the inbox invariant and supersedes the one held before |
| Inbox.EmptySupersedes | main.cpp:111-121 | an empty text pushed on reconnect supersedes a waiting command if one tick takes both |
| Movements.ArrivePoised | main.cpp:222-235 | queueing or flushing keeps order, explains every loss, flushes nothing urgent, and raises the skip flag only over the newcomer |
| Movements.ProceedValid | main.cpp:252-268 | after the movement part of a tick the skip flag is up only over an empty queue, nothing urgent waits, and order, losses and gating are kept |
| Movements.QueuedTrafficIsFifo | main.cpp:222-226 | the same first-come-first-served result for the movement queue alone |
| Pilot.AccumulatedError | main.cpp:184-194 | over any history, the counts moved for commands less those of unknown directions are the counts asked for up to 356869520/26100 per aiming command |
| Pilot.ErrorReached | main.cpp:184-194 | the bound is attained for every number of commands, by 41.99 degrees repeated |
| Pilot.SingleMove | main.cpp:184-193 | one move loses at most 356869520/26100 counts and never exceeds the exact value in magnitude |
| Pilot.UnknownDirectionRepeats | main.cpp:184-193 | directions 3 to 9 move by the previous angle again, which is no move if and only if that angle is 0 |
| Pilot.KnownDirectionsRepeatNothing | Toolbox.h:9 | with directions 0, 1 and 2 only there are no such repeats, and the same bound holds of the moves themselves |
| Pilot.CarryOutValid | main.cpp:175-195 | a command keeps the motor's log equal to what the history calls for, with speed directly before move |
| Pilot.ActOnValid | main.cpp:360-430 | so does a key |
| Pilot.RecoverValid | main.cpp:166-171 | so does the recovery of a faulted device |
| Pilot.RecoveryRequests | main.cpp:166-171 | the error code 0x34000007 and a non-empty error list each initialise the device once with the profile 10000, 1000, 2000, and any other code does nothing |
| Position.TargetIsFormula | main.cpp:159 | the written formula, truncated, is 3604480/261 counts a degree, truncated |
| Position.TargetOdd | main.cpp:159 | opposite angles have opposite targets |
| Position.TargetNearExact | main.cpp:159 | truncation loses less than one count, towards zero |
| Position.TargetIncreases | main.cpp:159 | targets rise by more than 13809 counts a degree |
| Position.TargetFits | main.cpp:57 | a target fits a 32-bit int if and only if the angle is within 155499 degrees |
| Position.MoveError | main.cpp:184-189 | truncating hundredths to degrees and degrees to counts loses at most 356869520/26100 counts, towards zero |
| ControlPanel.SinceLastIsSuffix | main.cpp:156-162 | "since the last" means the longest suffix of the history without a reset |
| ControlPanel.TargetCoherent | main.cpp:380-430 | the target is the angle's plus 100000 per SUB_10 press since the last recalculation, over any history of commands and keys |
| ControlPanel.CursorCounts | main.cpp:160-161 | the digit cursor counts the recalculations since PLAY modulo 3, whichever of the three callers made them |
| ControlPanel.AngleExact | main.cpp:380-387 | the angle is what the last aiming command asked for, plus 15 per NEXT and minus 15 per PREV since |
| ControlPanel.AngleBounded | main.cpp:184-189 | the angle is within 999 degrees plus 15 per PREV or NEXT since a command last set it |
| ControlPanel.TargetStaysInRange | main.cpp:380-387 | the angle's target fits a 32-bit int while at most 10300 nudges have piled up |
| ControlPanel.TypedDigits | main.cpp:388-427 | typing after PLAY fills the three cells round robin and never changes the angle |
| ControlPanel.CellsShown | main.cpp:366-427 | after any history a cell shows the digit last typed into it, or 0 if PLAY or STOP came after or none was typed |
| Remote.FoundAnywhere | main.cpp:294 | a token is found if and only if the text is something, the token and something |
| Remote.NamesSelectKeys | main.cpp:294-356 | for each of the 21 names, any text that contains it and no name tested later selects that name's key, whatever was held before |
| Remote.ScanKey | main.cpp:291-356 | the chain of searches selects the key of the last name found anywhere in the text, and keeps the previous key if there is none |
| Remote.LastTokenWins | main.cpp:294-356 | the last token in search order that occurs in the text decides |
| Remote.UnknownTextKeepsKey | main.cpp:294-356 | a text without any token leaves the key unchanged |
| Remote.SilenceReleases | main.cpp:354-356 | a tick without an infrared code releases the key |
| Remote.DestutterStutterFree | main.cpp:358 | removing repetitions leaves none and keeps the last key |
| Remote.DestutterKeepsChanges | main.cpp:358 | nothing but repetition is removed |
| Protocol.DecodeWritten | Toolbox.cpp:32-77 | twelve texts of the right widths, with any separators and surroundings, decode to what `std::stoi` makes of them if all convert and are deliverable, and to the zero record if not |
| Protocol.NegativeFieldsDecoded | Toolbox.cpp:40-61 | a record with a minus sign in its speed and angle decodes to the negative whole parts plus its hundredths |
| Protocol.RoundTrip | Toolbox.cpp:32-77 | a well-formed record at an index's stride, whatever surrounds it, decodes to exactly what it denotes if deliverable and to the zero record if not |
| Protocol.DecodeLocal | Toolbox.cpp:36-53 | decoding depends only on the 28 characters at the stride, and a string without them gives the zero record |
| Protocol.LengthTestImplied | Toolbox.cpp:82 | the explicit length test is implied by the slices having parsed |
| Protocol.DecodeTotal | Toolbox.cpp:93-105 | every string and index gives the zero record or one with stimulus 1 to 3 and direction, speed, angle, duration and level within their ranges |
| Protocol.DeliveredRecord | Toolbox.cpp:78-92 | exactly which strings give a non-zero record |
| Protocol.ParseEncode | Toolbox.h:8-10 | the encoder of the described format is inverted by the slicing |
| Protocol.EncodeInjective | Toolbox.h:8-10 | well-formed records with the same text are the same |
| Protocol.StrideSharesFlag | Toolbox.cpp:36 | in a laid-out message a record's stimulus flag is the next record's leading speaker digit |
| Protocol.BackToBackRejected | Toolbox.cpp:36-43 | a second record after a full-width first one is never delivered |
| Numerals.StoiSigned | Toolbox.cpp:38-53 | white space, an optional sign and digits convert to the signed number if it fits an int, whatever follows the digits |
| Numerals.StoiNothing | Toolbox.cpp:38-53 | without a digit after white space and sign there is no conversion |
| Numerals.StoiNumeral | Toolbox.cpp:38-53 | converting a fixed-width numeral gives back its number |
| Numerals.StoiBound | Toolbox.cpp:38-53 | how large a converted field can be, sign included |
| Toolbox.HostRecord.SetToZero | Toolbox.cpp:93-105 | every field is cleared |
| Toolbox.CheckForValidity | Toolbox.cpp:78-92 | clears the record if and only if it refuses it |
| Toolbox.DecodeHostData | Toolbox.cpp:32-77 | the record filled in place is the decoded one, whatever its fields held before |
| Motor.MaxonMotor.SetPosModeParameter | cmaxonmotor.cpp:256-274 | writes the default profile |
| Motor.MaxonMotor.SetSpeed | cmaxonmotor.cpp:279-295 | rewrites the velocity, and the ramps with what the read left |
| Motor.RampsNominalIff | cmaxonmotor.cpp:279-295 | the ramps are nominal after a run of speed changes if and only if the last failed read, if any, left nominal values |
| Motor.LastSpeedWins | cmaxonmotor.cpp:290 | the velocity is the last speed's, defined if and only if it fits an unsigned int |
| Motor.FailedReadLosesRamps | cmaxonmotor.cpp:289-291 | one failed read can lose the ramps |
| Orbiter.Controller.PushTcp | main.cpp:106-122 | the TCP thread's push is one step of the machine |
| Orbiter.Controller.DrainIr | main.cpp:197-205 | the newest infrared code, or none, starts the tick |
| Orbiter.Controller.DrainTcp | main.cpp:208-215 | the drain leaves no message waiting and holds the last one taken; its steps are those the arrivals before each test call for |
| Orbiter.Controller.InterpretMessage | main.cpp:217-235 | decoding, queueing and flushing are the machine's |
| Orbiter.Controller.CalcTargetPosition | main.cpp:156-162 | the target follows the angle and the cursor moves on modulo 3 |
| Orbiter.Controller.ProcessMovement | main.cpp:173-195 | the head leaves the queue and is carried out as specified |
| Orbiter.Controller.ProcessMovements | main.cpp:252-268 | the gate is the machine's, which spends the override only on a forced command |
| Orbiter.Controller.ActOnKey | main.cpp:360-430 | each key's action, with every digit written inside the three cells |
| Orbiter.Controller.ProcessInfrared | main.cpp:291-433 | key recognition and edge detection are the machine's |
| Orbiter.Controller.TimerFunc | main.cpp:196-450 | one tick is a begin, the drain's pushes and pops, and a finish, and works on the newest infrared code waiting |
| Orbiter.Controller.FinishTick | main.cpp:217-450 | what a tick does after its drains is one finishing step of the machine |
| Orbiter.Controller.IdleFunc | main.cpp:166-171 | the idle function is one step of the machine |
| Orbiter.Controller.DeliverCodes | main.cpp:98-103 | codes received are pushed in order and waiting afterwards |
| Orbiter.Controller.PlayRound | main.cpp:598-604 | one pass of the loop: the codes, a tick against the arrivals, then the idle function |
| Orbiter.Controller.MainLoop | main.cpp:598-604 | for any rounds of codes, host messages, motor answers and faults the trace grows by exactly their script, each tick works on the newest code of its round, the device is initialised for exactly the faults reported, and the end-to-end, per-tick and debouncing results hold of what was pushed |
| Rounds.Clockwork | main.cpp:598-604 | each round begins one tick, finishes it with that round's answers, and then looks for that round's faults |
| Rounds.ScriptDelivers | main.cpp:598-604 | the messages pushed are, round by round, the arrivals from before the drain saw the queue empty, in order |
| Rounds.DrainDelivers | main.cpp:209-215 | a drain gets a prefix of the arrivals, in order |
| Rounds.DrainTakesAll | main.cpp:209-215 | a drain takes as many messages as were waiting or arrived |
| Rounds.DrainOnlyPushesAndTakes | main.cpp:209-215 | a drain does nothing but push and take |
| IrSend.BuildPacket | IRSend.cpp:160-180 | refuses exactly when the joined words leave no spare cell; otherwise the buffer holds them, a newline and a terminator within the packet size |
| IrSend.SplitJoined | IRSend.cpp:162-179 | splitting the joined line gives the words back |
| MusicScale.GetPitchByName | MusicScale.cpp:15-20 | the search by name finds the pitch of each of the twelve names, as the lookup by index gives it, and 0 for any other name |
| MusicScale.EqualTemperament | MusicScale.h:5-20 | the twelfth power of note i is 2 to the i within 10^-11 |
| MusicScale.ReferencePitches | MusicScale.h:5-20 | concert pitch 440 in octave 4, and the references of octaves 0, 1 and 8 |
| MusicScale.PitchCarries | MusicScale.cpp:22-25 | twelve notes up is one octave up |
| MusicScale.PitchRises | MusicScale.cpp:22-25 | pitches rise strictly across every octave boundary |
| MusicScale.OctaveDoubles | MusicScale.h:5-20 | an octave doubles the pitch if and only if the lower note is not in the lowest octave |

## Left out

- Floating-point rounding: speeds, angles and counts are exact; the decibel level is kept instead of the linear loudness.
- Protocol.DecodeLocal: does not model indices whose product with 27 exceeds a 32-bit int; the program only uses index 0.
- ControlPanel.TargetCoherent: does not model overflow of the target by unbounded SUB_10 presses.
- Orbiter.Controller.ActOnKey: does not model the write past the third digit cell.
- Motor.MaxonMotor.SetSpeed: does not model failing profile writes, or mode activations and moves the device refuses; a move is the request for it.
- Orbiter.Controller.TimerFunc: does not model the stimulus queue and the stimulus library, which is assumed not to touch the motor or the movement queue.
- Sharing of one record between the movement queue and the stimulus queue: queued commands are values.
- Sockets, the infrared daemon, sleeping, console output and signal handling: what they deliver are parameters; the main loop's exit flag is the end of its input.
- The unsynchronised emptiness test of the TCP queue is an atomic step; data races are not modelled.
- Enabling, disabling, opening and closing the device; supply and display readings.
- The remaining directives and option parsing of IRSend.cpp; the case-insensitive match of the directive.
- TCPServer.cpp, MvngSpkrUI.cpp and the unused main programs.
