/** One user's conversation as the running bot holds it: the phase the
    ConversationHandler keeps for the user and the `user_data` dictionary the handlers
    update in place. Each handler is a method proved equal to its specification in
    `Flow`; `Dispatch` is the ConversationHandler itself, proved equal to `Flow.Step`. */
module Session {
  import opened Tables
  import opened Rendering
  import opened Flow

  class Conversation {
    var phase: Phase
    var userData: UserData

    ghost function Current(): Config
      reads this
    {
      Config(phase, userData)
    }

    ghost predicate Valid()
      reads this
    {
      Inv(Current())
    }

    /** A user outside any conversation, with whatever `user_data` they already have. */
    constructor (userData: UserData)
      ensures phase == Idle && this.userData == userData
      ensures Valid()
    {
      phase := Idle;
      this.userData := userData;
    }

    /** `create`: the goal keyboard, one label per row in declaration order. */
    method Create() returns (o: Outcome)
      ensures o == CreateOutcome()
      ensures o.Next? && o.phase == AskGoal
    {
      var keyboard := Keyboard(GoalTable);
      o := Next(AskGoal, [Reply("🎯 Выберите цель:", ShowKeyboard(keyboard))]);
    }

    /** `handle_goal`: store the goal key for a GOALS label, otherwise re-prompt. */
    method HandleGoal(text: string) returns (o: Outcome)
      modifies this`userData
      ensures o == GoalOutcome(text)
      ensures userData == GoalUserData(old(userData), text)
    {
      if text in Goals() {
        userData := userData[GoalSlot := Goals()[text]];
        o := Next(AskLevel, [Reply("📊 Ваш уровень:", ShowKeyboard(Keyboard(LevelTable)))]);
      } else {
        o := Next(AskGoal, [Reply("Пожалуйста, выберите цель из списка.", Unchanged)]);
      }
    }

    /** `handle_level`: for a LEVELS label, read the stored goal, look the program up,
        render it and end; otherwise re-prompt. */
    method HandleLevel(text: string, catalog: Catalog) returns (o: Outcome)
      ensures o == LevelOutcome(userData, text, catalog)
    {
      if text in Levels() {
        if GoalSlot !in userData {
          return Raised(MissingKey(GoalSlot));
        }
        var goal := userData[GoalSlot];
        var level := Levels()[text];
        var program := Lookup(catalog, goal, level);
        if program.None? {
          return Raised(NoProgram(goal, level));
        }
        var rendered := RenderText(program.value);
        o := Next(Idle, [Reply(rendered, Unchanged), Reply("Удачных тренировок! 💪", RemoveKeyboard)]);
      } else {
        o := Next(AskLevel, [Reply("Пожалуйста, выберите уровень из списка.", Unchanged)]);
      }
    }

    /** `cancel`: acknowledge and end. */
    method Cancel() returns (o: Outcome)
      ensures o == CancelOutcome()
      ensures o.Next? && o.phase == Idle
    {
      o := Next(Idle, [Reply("❌ Отменено", RemoveKeyboard)]);
    }

    /** The ConversationHandler: route the event by the current phase, run the handler,
        and take the phase it returns (keep the phase when it raises). The invariant
        of `Flow.Inv` is kept, so the read of the stored goal never fails. */
    method Dispatch(ev: Event, catalog: Catalog) returns (replies: seq<Reply>, failure: Option<Failure>)
      requires Valid()
      modifies this
      ensures StepResult(Current(), replies, failure) == Step(old(Current()), ev, catalog)
      ensures Valid()
      ensures failure != Some(MissingKey(GoalSlot))
    {
      ghost var before := Current();
      var handler := Route(phase, ev);
      var o: Outcome;
      match handler {
        case None =>
          return [], None;
        case Some(OnCreate) =>
          o := Create();
        case Some(OnGoal) =>
          o := HandleGoal(ev.body);
        case Some(OnLevel) =>
          o := HandleLevel(ev.body, catalog);
        case Some(OnCancel) =>
          o := Cancel();
      }
      match o {
        case Next(next, rs) =>
          phase, replies, failure := next, rs, None;
        case Raised(f) =>
          replies, failure := [], Some(f);
      }
      StepKeepsInv(before, ev, catalog);
    }
  }
}
