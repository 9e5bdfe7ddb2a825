# Fitness-trainer bot: the two-question conversation

This project models the core of a Telegram bot that builds a workout program by asking two
questions. `/create` shows a keyboard of fitness goals. A goal label stores the goal key in
the user's `user_data` and shows a keyboard of experience levels. A level label looks up the
program for (goal, level) in the catalog, sends it as formatted text and is meant to end
the conversation with a farewell that removes the keyboard. Unknown labels re-prompt.
`/cancel` is meant to end a conversation in progress; outside one it is ignored. As written,
both `handle_level` and `cancel` raise while building the keyboard removal, so neither ends
the conversation (see Findings). `Step`, `Run` and the `Session` methods model the intended
keyboard removal; `StepAsWritten` and `RunAsWritten` model the code as written.

Modules:

- `Tables` (`tables.dfy`): the `GOALS` and `LEVELS` label-to-key tables, kept as ordered
  entry lists because the keyboards show the labels in declaration order. It also has the
  dictionary built from a list, the inverse lookup, and the keyboard layout.
- `Rendering` (`rendering.dfy`): the program record and the reply text. `Render` gives the
  text as the concatenation of its lines. `RenderText` builds it the way `handle_level` does,
  appending to an accumulator in two loops.
- `Flow` (`flow.dfy`): the pure specification. It has the four handlers, the routing that the
  ConversationHandler declares, one step per inbound event (`Step`), runs over event
  sequences (`Run`), and the conversation invariant. `Step` removes the keyboard as evidently
  intended; `StepAsWritten` and `RunAsWritten` model the handlers as written (see Findings).
- `Session` (`session.dfy`): one user's conversation as a class. Its fields are the phase and
  the `user_data` map that the handlers update in place. Each handler is a method proved equal
  to its specification in `Flow`. `Dispatch` is proved equal to `Flow.Step` and keeps the
  invariant.

The catalog (`get_program_by_goal` in `programs.py`) is a parameter,
`map<(goal key, level key), Program>`. A missing entry is modelled as an error result, not
excluded by a precondition. Goal and level keys are strings, as in the code.

Two consequences of the code that the model makes explicit:

- The code never clears `user_data` when a conversation finishes or is cancelled.
  `Flow.CancelStep` and `Flow.LevelStep` state that it is kept. This is harmless: the only
  way into AskLevel stores the chosen goal over the old one (`Flow.EnterAskLevel`), and no
  step that stays in AskLevel changes `user_data` (`Flow.StayAskLevel`), so `handle_level`
  always reads the goal chosen in the current conversation. `Flow.GoalThenLevel` shows the
  plain two-event path end to end.
- A catalog miss raises inside `handle_level`. The ConversationHandler then keeps the state,
  so the user stays in AskLevel. The model records a `NoProgram` failure and keeps the phase.

## Model

| member | source | states |
|---|---|---|
| Tables.AsMap | main.py:24-35 | the dictionary a dict display builds has exactly the labels of its entries as keys |
| Tables.LabelOf | main.py:24-35 | the source has no inverse lookup; this one exists only to state invertibility: a found label sits in an entry with that key, and nothing is found only when no entry has the key |
| Tables.Keyboard | main.py:53 | the keyboard `[[l] for l in T.keys()]` has one row per entry, row i holding the i-th label alone |
| Tables.TablesShape | main.py:24-35 | GOALS has exactly four labels and LEVELS exactly three; the key sets are {weight_loss, muscle_gain, strength, endurance} and {beginner, intermediate, advanced} |
| Tables.TablesDistinct | main.py:24-35 | in both tables the labels are pairwise distinct and the keys are pairwise distinct |
| Tables.TableIsInvertible | main.py:24-35 | a table with distinct labels and keys gives an injective dictionary; the inverse lookup maps each key back to its label, and each value to a label that maps to it |
| Tables.GoalsAndLevelsInvertible | main.py:24-35 | GOALS and LEVELS are injective; the inverse lookup maps each label's key back to that label, and each key to a label that maps to it |
| Tables.AsMapAt | main.py:24-29 | with distinct labels, every (label, key) entry of the dict display is in the dictionary with its own key |
| Tables.AsMapSize | main.py:24-29 | with distinct labels, the dictionary has as many keys as the display has entries |
| Tables.AsMapValues | main.py:24-29 | with distinct labels, the dictionary's values are exactly the keys of the entries |
| Tables.LabelOfAt | main.py:24-35 | with distinct keys, the inverse lookup of an entry's key returns that entry's label |
| Tables.KeyboardOffersLabels | main.py:53 | the keyboard has one row per label holding that label alone, in declaration order; rows are distinct; the labels shown are exactly the dictionary's keys |
| Rendering.RenderText | main.py:77-89 | the text built by appending the banner, title, description, feature bullets, schedule bullets, nutrition, water and optional tips equals `Render(p)` |
| Rendering.LineAt | main.py:77-89 | each appended line occurs intact in the final text at its start position |
| Rendering.LineStartGrows | main.py:77-89 | a later-appended line starts no earlier than the end of an earlier one |
| Rendering.Lines | main.py:77-89 | the reply has four opening lines, one line per feature, the schedule heading, one line per schedule entry, and three closing lines with tips or two without |
| Rendering.LinesLayout | main.py:77-89 | the opening lines come first, then feature i's bullet, the schedule heading, schedule entry k's bullet, and the closing lines last |
| Rendering.Render | main.py:77-80 | the reply begins with the banner, the bold title, the description and the features heading |
| Rendering.OpeningBeforeFeatures | main.py:77-82 | every feature bullet starts after the opening text, the first one right where it ends |
| Rendering.RenderShowsFeature | main.py:81-82 | every feature occurs as its own `• feature` bullet in the reply |
| Rendering.FeaturesInOrder | main.py:81-82 | feature bullets occur in feature-list order, without overlapping |
| Rendering.RenderShowsScheduleEntry | main.py:84-85 | every schedule entry occurs as a `• day: workout` bullet |
| Rendering.ScheduleInOrder | main.py:84-85 | schedule bullets occur in schedule order, without overlapping |
| Rendering.FeaturesBeforeSchedule | main.py:80-85 | every feature bullet comes before every schedule bullet |
| Rendering.OpeningBeforeSchedule | main.py:77-85 | every schedule bullet starts after the opening text, also when there are no features |
| Rendering.FeaturesBeforeClosing | main.py:81-87 | every feature bullet ends before the closing lines start, also when the schedule is empty |
| Rendering.ScheduleBeforeClosing | main.py:84-87 | every schedule bullet ends before the closing lines start, the last one exactly where they start |
| Rendering.ClosingAfterSchedule | main.py:86-87 | from where the closing lines start, the reply continues with the nutrition line and then the water line |
| Rendering.RenderClosing | main.py:86-89 | without tips the reply ends with the nutrition and water lines; with tips it is the same text plus exactly the tips line; the tips line is present if and only if the record has tips |
| Flow.CreateOutcome | main.py:52-56 | `create` returns AskGoal with the one goal prompt, which shows a keyboard |
| Flow.CancelOutcome | main.py:101-106 | `cancel` returns END with the acknowledgement, which removes the keyboard (the intended behaviour; see Findings) |
| Flow.Lookup | main.py:75 | the lookup finds a program exactly when the catalog has the (goal, level) pair, and then it is that pair's program |
| Flow.GoalOutcome | main.py:58-68 | `handle_goal` always returns a phase with one reply; it moves to AskLevel with a keyboard if and only if the text is a GOALS label, and stays in AskGoal otherwise |
| Flow.GoalUserData | main.py:60-61 | a GOALS label stores its key, one of the GOALS values, under `goal`; other text leaves `user_data` alone; no other key is ever added, removed or changed |
| Flow.LevelOutcome | main.py:70-99 | `handle_level` ends the conversation if and only if the text is a LEVELS label and nothing raises; it raises only for a LEVELS label, and KeyError on `goal` exactly when no goal is stored; on success it sends the rendered catalog program for (stored goal, `LEVELS[text]`) and the farewell, with the intended keyboard removal |
| Flow.Route | main.py:116-123 | `/create` is routed only outside a conversation; non-command text goes to `handle_goal` in AskGoal and to `handle_level` in AskLevel; `/cancel` is routed only inside a conversation |
| Flow.Apply | main.py:116-123 | the handler's `user_data` is kept; a step fails if and only if the handler raised, and then the phase stays and nothing is sent |
| Flow.Step | main.py:116-123 | one event sends at most two replies; a raising event keeps the phase and sends nothing; the phase changes only through a routed handler; no `user_data` key other than `goal` is touched |
| Flow.Run | main.py:116-123 | over a run, at most one exception and two replies per event, and no `user_data` key other than `goal` is touched |
| Flow.IgnoredEvents | main.py:116-123 | the conversation ignores exactly these events: anything but `/create` outside a conversation, and commands other than `/cancel` inside one; an ignored event changes nothing and sends nothing |
| Flow.CreateStep | main.py:52-56 | outside a conversation `/create` moves to AskGoal with the goal prompt and keeps `user_data`; inside one it is ignored |
| Flow.GoalPromptOffersGoals | main.py:53-55 | the goal keyboard has exactly four rows; row i holds the i-th GOALS label alone; rows are distinct; the labels offered are exactly the GOALS keys |
| Flow.LevelPromptOffersLevels | main.py:62-64 | the level keyboard has exactly three rows; row i holds the i-th LEVELS label alone; rows are distinct; the labels offered are exactly the LEVELS keys |
| Flow.GoalStep | main.py:58-68 | in AskGoal, text moves to AskLevel if and only if it is a GOALS label; a label stores `GOALS[text]` under `goal` and sends the level prompt; other text re-prompts and changes nothing |
| Flow.LevelStep | main.py:70-99 | in AskLevel, other text re-prompts and changes nothing; a LEVELS label with no stored goal raises KeyError; otherwise it ends with the rendered program for (stored goal, `LEVELS[text]`) and the farewell, or raises when the catalog has no such program |
| Flow.CancelStep | main.py:101-106 | `/cancel` from AskGoal or AskLevel ends the conversation with the acknowledgement and leaves `user_data` as it was; outside a conversation it is ignored |
| Flow.StepKeepsInv | main.py:60-75 | every event keeps the invariant that AskLevel implies a stored goal among the GOALS keys; from such a state no step raises KeyError, and none raises at all if the catalog covers every pair |
| Flow.RunKeepsInv | main.py:116-123 | along any sequence of events the invariant is kept, KeyError on the stored goal never occurs, and with a covering catalog no handler ever raises |
| Flow.FreshUserNeverMissesGoal | main.py:73 | starting outside a conversation, whatever `user_data` holds, no sequence of events makes the read of the stored goal fail |
| Flow.EnterAskLevel | main.py:58-65 | a step enters AskLevel only from AskGoal on a GOALS label, and then stores that label's key under `goal` over whatever was there |
| Flow.StayAskLevel | main.py:70-99 | a step that stays in AskLevel leaves `user_data` unchanged, so the goal read at line 73 is the one stored on entry |
| Flow.GoalThenLevel | main.py:58-75 | from AskGoal, whatever `user_data` held before, a goal label then a level label yields exactly the program for that goal key and level key |
| Flow.CreateGoalLevel | main.py:52-96 | for any GOALS label, any LEVELS label and a catalog with that pair, `/create` and the two labels yield both prompts, the rendered program and the farewell, and end outside the conversation with the goal stored |
| Flow.WeightLossBeginner | main.py:52-96 | `/create`, "Сжигание жира", "Новичок" yields the prompts and the rendered (weight_loss, beginner) program, ends with `goal` = weight_loss, and a new `/create` restarts in AskGoal |
| Session.Conversation.constructor | main.py:116-117 | a user starts outside any conversation with their existing `user_data`, and the invariant holds |
| Session.Conversation.Create | main.py:52-56 | the `create` handler returns AskGoal with the goal prompt and its keyboard |
| Session.Conversation.HandleGoal | main.py:58-68 | the `handle_goal` handler updates `user_data` in place exactly as `GoalUserData` says and returns `GoalOutcome` |
| Session.Conversation.HandleLevel | main.py:70-99 | the `handle_level` handler, rendering with the loop of `RenderText`, returns exactly `LevelOutcome`, including both error paths, with the intended keyboard removal |
| Session.Conversation.Cancel | main.py:101-106 | the `cancel` handler returns END with the acknowledgement, with the intended keyboard removal |
| Session.Conversation.Dispatch | main.py:116-123 | routing an event, running the handler and taking its returned phase gives exactly `Flow.Step`'s new phase, `user_data`, replies and failure; the invariant is kept and the stored goal is never missing; the handlers remove the keyboard as intended |
| Flow.CancelAsWritten | main.py:101-106 | as written, `/cancel` in AskGoal raises before any reply and leaves the user in AskGoal, where the intended step ends the conversation |
| Flow.LevelAsWritten | main.py:91-96 | as written, every successful level choice (a LEVELS label, a stored goal, a catalog with the pair) sends the program text, then raises before the farewell and leaves the user in AskLevel, where the intended step ends the conversation |
| Flow.LevelAsWrittenWeightLoss | main.py:91-96 | the same for the goal weight_loss and the text "Новичок" |
| Flow.StepAsWritten | main.py:91-106 | as written, a step inside a conversation never leaves it; it changes `user_data` exactly as the intended step does; outside a conversation it is the intended step |
| Flow.RunAsWritten | main.py:116-123 | as written, a run touches no `user_data` key other than `goal` |
| Flow.AsWrittenNeverEnds | main.py:91-106 | as written, once a conversation has started, no sequence of events ever brings the user back outside it |

## Left out

- Telegram transport. The model does not cover `reply_text`, the keyboard options
  (`one_time_keyboard`, `resize_keyboard`), the Markdown parse mode or `Application.builder`
  and `run_polling`. Replies are modelled as values holding a text and a keyboard action.
  In particular, a title, feature or other field with unbalanced Markdown makes Telegram
  reject the send at line 91; `reply_text` then raises and the user stays in AskLevel. The
  model assumes that every send succeeds.
- `async`/`await` and the internals of `ConversationHandler`, `MessageHandler` and `filters`.
  This is library code. The model keeps only the routing that lines 116-123 declare: the
  entry point, the per-state handlers and the fallback. `Event` assumes that the transport
  has already split commands from other text. The model assumes that a handler which raises
  leaves the conversation state unchanged, as the library does.
- Handling of many users and chats. The ConversationHandler keeps one conversation per
  (chat, user) pair, while `user_data` belongs to the user alone. The model is a single
  conversation with that user's `user_data`. Separate users share nothing except the read-only
  catalog.
- Conversations of one user in different chats share that user's `user_data`. The model does
  not cover interleaving them, for instance a goal chosen in one chat being read by
  `handle_level` in another.
- The `start` and `help_command` handlers (lines 37-50). They only send constant text and
  change no state.
- Logging setup, the `BOT_TOKEN` check, and the `if name == '__main__'` guard (lines 15-18,
  109-112, 132-133). These are process plumbing. As written, line 132 would raise a NameError.
- `programs.py` is not part of this model. The catalog is an opaque parameter, and
  `get_program_by_goal` is assumed to return the catalog entry or nothing. The model reads
  the weekly schedule in dictionary iteration order, as a list of (day, workout) pairs.
- Determinism of rendering has no separate lemma. `Render` is a function, and the
  postcondition of `RenderText` fixes its result to `Render(p)`, so two renderings of the same
  record give the same text.

## Findings

| source | as written | input that shows it | evidently intended | confidence | as-written member | corrected member |
|---|---|---|---|---|---|---|
| main.py:101-106 | `cancel` builds its markup with `ReplyKeyboardMarkup.remove_keyboard()`. The keyboard class has no such attribute, so the handler raises AttributeError before replying, and the conversation stays where it was | `/create`, then `/cancel` | acknowledge, remove the keyboard (`ReplyKeyboardRemove()`) and end the conversation | not executed; rests on the keyboard class's published interface | Flow.CancelAsWritten | Flow.CancelStep |
| main.py:91-96 | `handle_level` sends the program text, then raises the same AttributeError while building the farewell's markup, so it never returns END. With `cancel` also raising, a started conversation never ends (`Flow.AsWrittenNeverEnds`) | `/create`, "Сжигание жира", "Новичок" | send the program and the farewell, remove the keyboard and end the conversation | not executed; rests on the keyboard class's published interface | Flow.LevelAsWritten | Flow.LevelStep |
