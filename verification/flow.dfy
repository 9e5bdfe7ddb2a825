/** The two-question conversation as a pure specification: the four handlers
    (`create`, `handle_goal`, `handle_level`, `cancel`), the routing that the
    ConversationHandler declares for them, one step of the conversation per inbound
    event, and runs over sequences of events. */
module Flow {
  import opened Tables
  import opened Rendering

  /** Where a user stands. `Idle` is `ConversationHandler.END`, i.e. no conversation. */
  datatype Phase = Idle | AskGoal | AskLevel

  /** An inbound message as the transport classifies it: a bot command (`/create` is
      `Command("create")`) or a text message that is not a command. */
  datatype Event = Command(name: string) | Text(body: string)

  /** What a reply does to the reply keyboard. */
  datatype Markup = Unchanged | ShowKeyboard(rows: seq<seq<string>>) | RemoveKeyboard

  datatype Reply = Reply(text: string, markup: Markup)

  /** The exceptions a handler can raise: a missing `user_data` key, a catalog without
      a program for the chosen pair (the handler then indexes into nothing), or a missing
      attribute of a library class. */
  datatype Failure = MissingKey(key: string) | NoProgram(goal: string, level: string) | MissingAttribute(name: string)

  /** What a handler does: return the next phase after sending its replies, or raise. */
  datatype Outcome = Next(phase: Phase, replies: seq<Reply>) | Raised(failure: Failure)

  /** The per-user `context.user_data` dictionary. */
  type UserData = map<string, string>

  /** The program catalog, keyed by (goal key, level key). */
  type Catalog = map<(string, string), Program>

  datatype Config = Config(phase: Phase, userData: UserData)

  /** The result of one event: the new configuration, the replies sent, and the
      exception raised, if any. */
  datatype StepResult = StepResult(config: Config, replies: seq<Reply>, failure: Option<Failure>)

  /** The result of a run of events: the final configuration, all replies, all exceptions. */
  datatype Trace = Trace(config: Config, replies: seq<Reply>, failures: seq<Failure>)

  /** The `user_data` key under which the chosen goal is stored. */
  const GoalSlot: string := "goal"

  function GoalPrompt(): Reply { Reply("🎯 Выберите цель:", ShowKeyboard(Keyboard(GoalTable))) }
  function LevelPrompt(): Reply { Reply("📊 Ваш уровень:", ShowKeyboard(Keyboard(LevelTable))) }
  const GoalRetry: Reply := Reply("Пожалуйста, выберите цель из списка.", Unchanged)
  const LevelRetry: Reply := Reply("Пожалуйста, выберите уровень из списка.", Unchanged)
  const Farewell: Reply := Reply("Удачных тренировок! 💪", RemoveKeyboard)
  const Cancelled: Reply := Reply("❌ Отменено", RemoveKeyboard)

  /** `get_program_by_goal`: the catalog entry for a pair, if there is one. */
  function Lookup(catalog: Catalog, goal: string, level: string): (r: Option<Program>)
    ensures r.Some? <==> (goal, level) in catalog
    ensures r.Some? ==> r.value == catalog[(goal, level)]
  {
    if (goal, level) in catalog then Some(catalog[(goal, level)]) else None
  }

  /** `create`: show the goal keyboard and ask for the goal. */
  function CreateOutcome(): (r: Outcome)
    ensures r.Next? && r.phase == AskGoal
    ensures r.replies == [GoalPrompt()] && r.replies[0].markup.ShowKeyboard?
  {
    Next(AskGoal, [GoalPrompt()])
  }

  /** `handle_goal`: the phase and replies. */
  function GoalOutcome(text: string): (r: Outcome)
    ensures r.Next? && |r.replies| == 1
    ensures r.phase == AskLevel <==> text in Goals()
    ensures r.phase == AskGoal <==> text !in Goals()
    ensures r.replies[0].markup.ShowKeyboard? <==> text in Goals()
  {
    if text in Goals() then Next(AskLevel, [LevelPrompt()]) else Next(AskGoal, [GoalRetry])
  }

  /** `handle_goal`: what it leaves in `user_data`. */
  function GoalUserData(userData: UserData, text: string): (r: UserData)
    ensures text !in Goals() ==> r == userData
    ensures text in Goals() ==> GoalSlot in r && r[GoalSlot] == Goals()[text] && r[GoalSlot] in Goals().Values
    ensures forall k :: k != GoalSlot ==> (k in r <==> k in userData)
    ensures forall k :: k != GoalSlot && k in userData ==> r[k] == userData[k]
  {
    if text in Goals() then userData[GoalSlot := Goals()[text]] else userData
  }

  /** `handle_level`: it reads the stored goal only after the level label is accepted. */
  function LevelOutcome(userData: UserData, text: string, catalog: Catalog): (r: Outcome)
    ensures r.Next? ==> (r.phase == Idle <==> text in Levels()) && r.phase != AskGoal
    ensures r.Raised? ==> text in Levels()
    ensures r == Raised(MissingKey(GoalSlot)) <==> text in Levels() && GoalSlot !in userData
    ensures r.Next? && r.phase == Idle ==>
      && GoalSlot in userData
      && (userData[GoalSlot], Levels()[text]) in catalog
      && r.replies == [Reply(Render(catalog[(userData[GoalSlot], Levels()[text])]), Unchanged), Farewell]
  {
    if text !in Levels() then Next(AskLevel, [LevelRetry])
    else if GoalSlot !in userData then Raised(MissingKey(GoalSlot))
    else
      var goal, level := userData[GoalSlot], Levels()[text];
      match Lookup(catalog, goal, level)
      case None => Raised(NoProgram(goal, level))
      case Some(p) => Next(Idle, [Reply(Render(p), Unchanged), Farewell])
  }

  /** `cancel`: acknowledge, remove the keyboard and end the conversation. */
  function CancelOutcome(): (r: Outcome)
    ensures r.Next? && r.phase == Idle
    ensures r.replies == [Cancelled] && r.replies[0].markup == RemoveKeyboard
  {
    Next(Idle, [Cancelled])
  }

  datatype Handler = OnCreate | OnGoal | OnLevel | OnCancel

  /** The ConversationHandler's declaration: `/create` is the entry point (only outside a
      conversation, since re-entry is not allowed), each asking phase takes non-command
      text, and `/cancel` is the fallback inside a conversation. Anything else is not
      handled by the conversation. */
  function Route(phase: Phase, ev: Event): (h: Option<Handler>)
    ensures h == Some(OnCreate) <==> phase == Idle && ev == Command("create")
    ensures h == Some(OnGoal) <==> phase == AskGoal && ev.Text?
    ensures h == Some(OnLevel) <==> phase == AskLevel && ev.Text?
    ensures h == Some(OnCancel) <==> phase != Idle && ev == Command("cancel")
  {
    match phase
    case Idle => if ev == Command("create") then Some(OnCreate) else None
    case AskGoal =>
      if ev.Text? then Some(OnGoal) else if ev.name == "cancel" then Some(OnCancel) else None
    case AskLevel =>
      if ev.Text? then Some(OnLevel) else if ev.name == "cancel" then Some(OnCancel) else None
  }

  /** The conversation takes the phase a handler returns; when the handler raises, the
      phase stays where it was (what `user_data` became before the raise is kept). */
  function Apply(c: Config, userData: UserData, o: Outcome): (r: StepResult)
    ensures r.config.userData == userData
    ensures r.failure.Some? <==> o.Raised?
    ensures o.Raised? ==> r.config.phase == c.phase && r.replies == []
  {
    match o
    case Next(phase, replies) => StepResult(Config(phase, userData), replies, None)
    case Raised(f) => StepResult(Config(c.phase, userData), [], Some(f))
  }

  /** One inbound event. At most two replies are sent; a raising step keeps the phase
      and sends nothing; the phase only changes through a routed handler; and no
      `user_data` key other than the goal slot is ever touched. */
  function Step(c: Config, ev: Event, catalog: Catalog): (r: StepResult)
    ensures |r.replies| <= 2
    ensures r.failure.Some? ==> r.config.phase == c.phase && r.replies == []
    ensures r.config.phase != c.phase ==> Route(c.phase, ev).Some? && r.failure.None?
    ensures forall k :: k != GoalSlot ==> (k in r.config.userData <==> k in c.userData)
    ensures forall k :: k != GoalSlot && k in c.userData ==> r.config.userData[k] == c.userData[k]
  {
    match Route(c.phase, ev)
    case None => StepResult(c, [], None)
    case Some(OnCreate) => Apply(c, c.userData, CreateOutcome())
    case Some(OnGoal) => Apply(c, GoalUserData(c.userData, ev.body), GoalOutcome(ev.body))
    case Some(OnLevel) => Apply(c, c.userData, LevelOutcome(c.userData, ev.body, catalog))
    case Some(OnCancel) => Apply(c, c.userData, CancelOutcome())
  }

  /** A sequence of inbound events, one step after another. */
  function Run(c: Config, evs: seq<Event>, catalog: Catalog): (r: Trace)
    ensures |r.failures| <= |evs| && |r.replies| <= 2 * |evs|
    ensures forall k :: k != GoalSlot ==> (k in r.config.userData <==> k in c.userData)
    ensures forall k :: k != GoalSlot && k in c.userData ==> r.config.userData[k] == c.userData[k]
    decreases |evs|
  {
    if evs == [] then Trace(c, [], [])
    else
      var s := Step(c, evs[0], catalog);
      var t := Run(s.config, evs[1..], catalog);
      var raised := if s.failure.Some? then [s.failure.value] else [];
      Trace(t.config, s.replies + t.replies, raised + t.failures)
  }

  /** The conversation invariant: while the level is asked, `user_data` holds a goal
      key that is one of the GOALS values. */
  predicate Inv(c: Config) {
    c.phase == AskLevel ==> GoalSlot in c.userData && c.userData[GoalSlot] in Goals().Values
  }

  /** The catalog has a program for every goal key and level key the tables produce. */
  predicate Covers(catalog: Catalog) {
    forall g, l | g in Goals().Values && l in Levels().Values :: (g, l) in catalog
  }

  /** `/create` starts a conversation in AskGoal with the goal prompt, leaving
      `user_data` as it is; inside a conversation it is ignored. */
  lemma CreateStep(c: Config, catalog: Catalog)
    ensures c.phase == Idle ==>
      Step(c, Command("create"), catalog) == StepResult(Config(AskGoal, c.userData), [GoalPrompt()], None)
    ensures c.phase != Idle ==> Step(c, Command("create"), catalog) == StepResult(c, [], None)
  {
  }

  /** The goal prompt's keyboard offers exactly the four GOALS labels, one per row,
      each once, in declaration order. */
  lemma GoalPromptOffersGoals()
    ensures GoalPrompt().markup.ShowKeyboard?
    ensures var rows := GoalPrompt().markup.rows;
      && |rows| == |Goals()| == 4
      && (forall i :: 0 <= i < 4 ==> rows[i] == [GoalTable[i].0])
      && (forall i, j :: 0 <= i < j < 4 ==> rows[i] != rows[j])
      && (set i | 0 <= i < 4 :: rows[i][0]) == Goals().Keys
  {
    TablesDistinct();
    TablesShape();
    KeyboardOffersLabels(GoalTable);
  }

  /** The level prompt's keyboard offers exactly the three LEVELS labels, one per row,
      each once, in declaration order. */
  lemma LevelPromptOffersLevels()
    ensures LevelPrompt().markup.ShowKeyboard?
    ensures var rows := LevelPrompt().markup.rows;
      && |rows| == |Levels()| == 3
      && (forall i :: 0 <= i < 3 ==> rows[i] == [LevelTable[i].0])
      && (forall i, j :: 0 <= i < j < 3 ==> rows[i] != rows[j])
      && (set i | 0 <= i < 3 :: rows[i][0]) == Levels().Keys
  {
    TablesDistinct();
    TablesShape();
    KeyboardOffersLabels(LevelTable);
  }

  /** In AskGoal, a GOALS label moves to AskLevel and stores its key; any other text
      re-prompts, stays in AskGoal and leaves `user_data` alone. */
  lemma GoalStep(c: Config, t: string, catalog: Catalog)
    requires c.phase == AskGoal
    ensures var s := Step(c, Text(t), catalog);
      && s.failure == None
      && (s.config.phase == AskLevel <==> t in Goals())
      && (t in Goals() ==>
            s.config.userData == c.userData[GoalSlot := Goals()[t]] && s.replies == [LevelPrompt()])
      && (t !in Goals() ==> s.config == c && s.replies == [GoalRetry])
  {
  }

  /** In AskLevel, a LEVELS label ends the conversation with the program for the stored
      goal and the chosen level (or raises when there is no stored goal, or no such
      program); any other text re-prompts and changes nothing. */
  lemma LevelStep(c: Config, t: string, catalog: Catalog)
    requires c.phase == AskLevel
    ensures var s := Step(c, Text(t), catalog);
      && (t !in Levels() ==> s == StepResult(c, [LevelRetry], None))
      && (t in Levels() && GoalSlot !in c.userData ==> s == StepResult(c, [], Some(MissingKey(GoalSlot))))
      && (t in Levels() && GoalSlot in c.userData ==>
            var key := (c.userData[GoalSlot], Levels()[t]);
            && (key in catalog ==>
                  s == StepResult(Config(Idle, c.userData), [Reply(Render(catalog[key]), Unchanged), Farewell], None))
            && (key !in catalog ==> s == StepResult(c, [], Some(NoProgram(key.0, key.1)))))
  {
  }

  /** `/cancel` ends a conversation from either asking phase and does not clear
      `user_data`; outside a conversation it is ignored. */
  lemma CancelStep(c: Config, catalog: Catalog)
    ensures c.phase != Idle ==>
      Step(c, Command("cancel"), catalog) == StepResult(Config(Idle, c.userData), [Cancelled], None)
    ensures c.phase == Idle ==> Step(c, Command("cancel"), catalog) == StepResult(c, [], None)
  {
  }

  /** Exactly which events the conversation ignores: all but `/create` outside a
      conversation, and commands other than `/cancel` inside one. An ignored event
      changes nothing and sends nothing. */
  lemma IgnoredEvents(c: Config, ev: Event, catalog: Catalog)
    ensures Route(c.phase, ev).None? <==>
      (c.phase == Idle && ev != Command("create")) || (c.phase != Idle && ev.Command? && ev.name != "cancel")
    ensures Route(c.phase, ev).None? ==> Step(c, ev, catalog) == StepResult(c, [], None)
  {
  }

  /** Every step keeps the invariant, and from a state that has it the stored goal is
      always there when `handle_level` reads it. */
  lemma StepKeepsInv(c: Config, ev: Event, catalog: Catalog)
    requires Inv(c)
    ensures Inv(Step(c, ev, catalog).config)
    ensures Step(c, ev, catalog).failure != Some(MissingKey(GoalSlot))
    ensures Covers(catalog) ==> Step(c, ev, catalog).failure == None
  {
    if c.phase == AskGoal && ev.Text? && ev.body in Goals() {
      assert Goals()[ev.body] in Goals().Values;
    }
  }

  /** Along any run from a state with the invariant, the invariant holds at the end,
      `handle_level` never misses the stored goal, and with a catalog that covers every
      pair no handler raises at all. */
  lemma {:induction false} RunKeepsInv(c: Config, evs: seq<Event>, catalog: Catalog)
    requires Inv(c)
    ensures Inv(Run(c, evs, catalog).config)
    ensures MissingKey(GoalSlot) !in Run(c, evs, catalog).failures
    ensures Covers(catalog) ==> Run(c, evs, catalog).failures == []
    decreases |evs|
  {
    if evs != [] {
      StepKeepsInv(c, evs[0], catalog);
      RunKeepsInv(Step(c, evs[0], catalog).config, evs[1..], catalog);
    }
  }

  /** A fresh user (outside any conversation, whatever `user_data` holds) can never make
      the read of the stored goal in `handle_level` fail, whatever they send. */
  lemma FreshUserNeverMissesGoal(userData: UserData, evs: seq<Event>, catalog: Catalog)
    ensures MissingKey(GoalSlot) !in Run(Config(Idle, userData), evs, catalog).failures
    ensures Covers(catalog) ==> Run(Config(Idle, userData), evs, catalog).failures == []
  {
    RunKeepsInv(Config(Idle, userData), evs, catalog);
  }

  /** The only way into AskLevel is a GOALS label in AskGoal, and it stores that
      label's key over whatever `user_data` held under the goal slot. */
  lemma EnterAskLevel(c: Config, ev: Event, catalog: Catalog)
    requires c.phase != AskLevel && Step(c, ev, catalog).config.phase == AskLevel
    ensures c.phase == AskGoal && ev.Text? && ev.body in Goals()
    ensures Step(c, ev, catalog).config.userData == c.userData[GoalSlot := Goals()[ev.body]]
  {
  }

  /** A step that stays in AskLevel leaves `user_data` as it was; so the goal
      `handle_level` reads is the one stored on entering AskLevel, never a stale one. */
  lemma StayAskLevel(c: Config, ev: Event, catalog: Catalog)
    requires c.phase == AskLevel && Step(c, ev, catalog).config.phase == AskLevel
    ensures Step(c, ev, catalog).config.userData == c.userData
  {
  }

  /** Whatever an earlier conversation left in `user_data`, a goal label followed by a
      level label yields the program for exactly that goal and that level. */
  lemma GoalThenLevel(userData: UserData, g: string, l: string, catalog: Catalog)
    requires g in Goals() && l in Levels()
    requires (Goals()[g], Levels()[l]) in catalog
    ensures Run(Config(AskGoal, userData), [Text(g), Text(l)], catalog)
         == Trace(Config(Idle, userData[GoalSlot := Goals()[g]]),
                  [LevelPrompt(), Reply(Render(catalog[(Goals()[g], Levels()[l])]), Unchanged), Farewell],
                  [])
  {
    var evs := [Text(g), Text(l)];
    var c1 := Config(AskLevel, userData[GoalSlot := Goals()[g]]);
    var key := (Goals()[g], Levels()[l]);
    assert Step(Config(AskGoal, userData), Text(g), catalog) == StepResult(c1, [LevelPrompt()], None);
    var last := [Reply(Render(catalog[key]), Unchanged), Farewell];
    assert Step(c1, Text(l), catalog) == StepResult(Config(Idle, c1.userData), last, None);
    assert evs[1..] == [Text(l)];
    assert evs[1..][1..] == [];
    assert Run(c1, [Text(l)], catalog) == Trace(Config(Idle, c1.userData), last + [], [] + []);
    assert [LevelPrompt()] + (last + []) == [LevelPrompt()] + last;
  }

  /** A run is its first step followed by the run of the remaining events. */
  lemma RunCons(c: Config, ev: Event, evs: seq<Event>, catalog: Catalog)
    ensures var s, t := Step(c, ev, catalog), Run(Step(c, ev, catalog).config, evs, catalog);
      Run(c, [ev] + evs, catalog)
      == Trace(t.config, s.replies + t.replies, (if s.failure.Some? then [s.failure.value] else []) + t.failures)
  {
    assert ([ev] + evs)[1..] == evs;
  }

  /** `/create`, a goal label and a level label yield both prompts and the program for
      that goal key and level key, and end the conversation with the goal stored. */
  lemma CreateGoalLevel(userData: UserData, g: string, l: string, catalog: Catalog)
    requires g in Goals() && l in Levels()
    requires (Goals()[g], Levels()[l]) in catalog
    ensures Run(Config(Idle, userData), [Command("create"), Text(g), Text(l)], catalog)
         == Trace(Config(Idle, userData[GoalSlot := Goals()[g]]),
                  [GoalPrompt(), LevelPrompt(), Reply(Render(catalog[(Goals()[g], Levels()[l])]), Unchanged), Farewell],
                  [])
  {
    var c0, c1 := Config(Idle, userData), Config(AskGoal, userData);
    var tail := [LevelPrompt(), Reply(Render(catalog[(Goals()[g], Levels()[l])]), Unchanged), Farewell];
    GoalThenLevel(userData, g, l, catalog);
    assert Step(c0, Command("create"), catalog) == StepResult(c1, [GoalPrompt()], None);
    assert [Command("create"), Text(g), Text(l)] == [Command("create")] + [Text(g), Text(l)];
    RunCons(c0, Command("create"), [Text(g), Text(l)], catalog);
    assert [GoalPrompt()] + tail == [GoalPrompt()] + [LevelPrompt(), tail[1], Farewell];
  }

  /** `/create`, "Сжигание жира", "Новичок" yields the (weight_loss, beginner) program and
      ends the conversation; a new `/create` then starts over in AskGoal. */
  lemma WeightLossBeginner(userData: UserData, catalog: Catalog)
    requires ("weight_loss", "beginner") in catalog
    ensures var t := Run(Config(Idle, userData), [Command("create"), Text("Сжигание жира"), Text("Новичок")], catalog);
      && t.failures == []
      && t.config == Config(Idle, userData[GoalSlot := "weight_loss"])
      && t.replies == [GoalPrompt(), LevelPrompt(), Reply(Render(catalog[("weight_loss", "beginner")]), Unchanged), Farewell]
      && Step(t.config, Command("create"), catalog).config.phase == AskGoal
  {
    var g, l := "Сжигание жира", "Новичок";
    assert g in Goals() && Goals()[g] == "weight_loss" && l in Levels() && Levels()[l] == "beginner" by {
      TablesDistinct();
      AsMapAt(GoalTable, 0);
      AsMapAt(LevelTable, 0);
    }
    CreateGoalLevel(userData, g, l, catalog);
  }

  /* As written, `cancel` and `handle_level` build their last reply's markup with
     `ReplyKeyboardMarkup.remove_keyboard()`, an attribute the keyboard class does not
     have. Evaluating it raises AttributeError before that reply is sent, and the
     ConversationHandler keeps the phase. The definitions below model that; the rest of
     the model (`Step`, `Run`) uses the evidently intended keyboard removal. */

  /** The exception `ReplyKeyboardMarkup.remove_keyboard()` raises. */
  const NoRemoveKeyboard: Failure := MissingAttribute("remove_keyboard")

  /** One inbound event with the handlers as written: `cancel` raises before its reply;
      `handle_level`, on success, sends the program text and then raises before the
      farewell. Every other event behaves as in `Step`. Such a step never leaves a
      conversation, changes `user_data` exactly as `Step` does, and outside a
      conversation is `Step` itself. */
  function StepAsWritten(c: Config, ev: Event, catalog: Catalog): (r: StepResult)
    ensures c.phase != Idle ==> r.config.phase != Idle
    ensures r.config.userData == Step(c, ev, catalog).config.userData
    ensures c.phase == Idle ==> r == Step(c, ev, catalog)
  {
    match Route(c.phase, ev)
    case Some(OnCancel) => StepResult(c, [], Some(NoRemoveKeyboard))
    case Some(OnLevel) =>
      var o := LevelOutcome(c.userData, ev.body, catalog);
      if o.Next? && o.phase == Idle then StepResult(c, [o.replies[0]], Some(NoRemoveKeyboard))
      else Apply(c, c.userData, o)
    case _ => Step(c, ev, catalog)
  }

  /** A sequence of inbound events with the handlers as written. As in `Run`, no
      `user_data` key other than the goal slot is ever touched. */
  function RunAsWritten(c: Config, evs: seq<Event>, catalog: Catalog): (r: Config)
    ensures forall k :: k != GoalSlot ==> (k in r.userData <==> k in c.userData)
    ensures forall k :: k != GoalSlot && k in c.userData ==> r.userData[k] == c.userData[k]
    decreases |evs|
  {
    if evs == [] then c else RunAsWritten(StepAsWritten(c, evs[0], catalog).config, evs[1..], catalog)
  }

  /** As written, `/cancel` in AskGoal raises and leaves the user in AskGoal, where the
      intended step ends the conversation. */
  lemma CancelAsWritten(userData: UserData, catalog: Catalog)
    ensures StepAsWritten(Config(AskGoal, userData), Command("cancel"), catalog)
         == StepResult(Config(AskGoal, userData), [], Some(NoRemoveKeyboard))
    ensures Step(Config(AskGoal, userData), Command("cancel"), catalog).config.phase == Idle
  {
  }

  /** As written, every successful level choice sends the program text, raises, and
      leaves the user in AskLevel, where the intended step ends the conversation. */
  lemma LevelAsWritten(c: Config, t: string, catalog: Catalog)
    requires c.phase == AskLevel && t in Levels() && GoalSlot in c.userData
    requires (c.userData[GoalSlot], Levels()[t]) in catalog
    ensures StepAsWritten(c, Text(t), catalog)
         == StepResult(c, [Reply(Render(catalog[(c.userData[GoalSlot], Levels()[t])]), Unchanged)], Some(NoRemoveKeyboard))
    ensures Step(c, Text(t), catalog).config.phase == Idle
  {
  }

  /** The instance of `LevelAsWritten` for "Новичок" after the goal "weight_loss". */
  lemma LevelAsWrittenWeightLoss(userData: UserData, catalog: Catalog)
    requires ("weight_loss", "beginner") in catalog
    ensures var c := Config(AskLevel, userData[GoalSlot := "weight_loss"]);
      && StepAsWritten(c, Text("Новичок"), catalog)
         == StepResult(c, [Reply(Render(catalog[("weight_loss", "beginner")]), Unchanged)], Some(NoRemoveKeyboard))
      && Step(c, Text("Новичок"), catalog).config.phase == Idle
  {
    TablesDistinct();
    AsMapAt(LevelTable, 0);
    LevelAsWritten(Config(AskLevel, userData[GoalSlot := "weight_loss"]), "Новичок", catalog);
  }

  /** As written, once a conversation has started it never ends, whatever the user
      sends; and since `/create` is ignored inside a conversation, it never restarts. */
  lemma {:induction false} AsWrittenNeverEnds(c: Config, evs: seq<Event>, catalog: Catalog)
    requires c.phase != Idle
    ensures RunAsWritten(c, evs, catalog).phase != Idle
    decreases |evs|
  {
    if evs != [] {
      var s := StepAsWritten(c, evs[0], catalog);
      assert s.config.phase != Idle;
      AsWrittenNeverEnds(s.config, evs[1..], catalog);
    }
  }
}
