/** The host's answer to a greeting against its own commands. The room's thread reads
  * the play state and then sends it; the loop around the player remembers a new one and
  * then broadcasts it. The same goes for the film. What reaches the newcomer is one
  * ordered stream.
  */
module AnswerRace {
  import opened Wrappers

  /** `remembered` is what the host knows, `broadcasting` what its command has remembered
    * and not sent, `answering` what its answer has read and not sent. */
  datatype State<T> = State(remembered: Option<T>, broadcasting: Option<T>, answering: Option<T>, stream: seq<T>)

  datatype Event<T> = Remember(value: T) | Broadcast | Read | Answer

  predicate Enabled<T>(s: State<T>, e: Event<T>) {
    match e
    case Remember(_) => s.broadcasting.None?
    case Broadcast => s.broadcasting.Some?
    case Read => s.answering.None?
    case Answer => s.answering.Some?
  }

  function After<T>(s: State<T>, e: Event<T>): State<T>
    requires Enabled(s, e)
  {
    match e
    case Remember(v) => s.(remembered := Some(v), broadcasting := Some(v))
    case Broadcast => s.(stream := s.stream + [s.broadcasting.value], broadcasting := None)
    case Read => s.(answering := s.remembered)
    case Answer => s.(stream := s.stream + [s.answering.value], answering := None)
  }

  predicate Possible<T>(s: State<T>, run: seq<Event<T>>)
    decreases |run|
  {
    run != [] ==> Enabled(s, run[0]) && Possible(After(s, run[0]), run[1..])
  }

  function Run<T>(s: State<T>, run: seq<Event<T>>): State<T>
    requires Possible(s, run)
    decreases |run|
  {
    if run == [] then s else Run(After(s, run[0]), run[1..])
  }

  predicate Quiet<T>(s: State<T>) {
    s.broadcasting.None? && s.answering.None?
  }

  /** The last thing the newcomer heard, if anything, is what the host knows. */
  predicate Current<T(==)>(s: State<T>) {
    s.stream != [] ==> s.remembered == Some(s.stream[|s.stream| - 1])
  }

  /** No command's broadcast overtakes an answer that has read another value. */
  predicate NeverOvertaken<T(==)>(s: State<T>, run: seq<Event<T>>)
    requires Possible(s, run)
    decreases |run|
  {
    run != [] ==>
      && (run[0].Broadcast? && s.answering.Some? ==> s.answering == s.broadcasting)
      && NeverOvertaken(After(s, run[0]), run[1..])
  }

  /** Unless a command is still to be broadcast, what the newcomer heard last, or will
    * hear from the answer, is what the host knows. */
  predicate Inv<T(==)>(s: State<T>) {
    && (s.broadcasting.Some? ==> s.broadcasting == s.remembered)
    && (s.broadcasting.None? && s.answering.Some? ==> s.answering == s.remembered)
    && (s.broadcasting.None? ==> Current(s))
  }

  lemma StepKeepsInv<T>(s: State<T>, e: Event<T>)
    requires Inv(s) && Enabled(s, e) && (e.Broadcast? && s.answering.Some? ==> s.answering == s.broadcasting)
    ensures Inv(After(s, e))
  {
  }

  /** In every run in which no broadcast overtakes an answer that read something else:
    * whenever the host has nothing left to send, the newcomer's last word is the host's. */
  lemma {:induction false} AnswersStayCurrent<T>(s: State<T>, run: seq<Event<T>>)
    requires Inv(s) && Possible(s, run) && NeverOvertaken(s, run)
    ensures Inv(Run(s, run)) && (Quiet(Run(s, run)) ==> Current(Run(s, run)))
    decreases |run|
  {
    if run != [] {
      StepKeepsInv(s, run[0]);
      AnswersStayCurrent(After(s, run[0]), run[1..]);
    }
  }

  /** An answer that is overtaken makes the newcomer end with the old value. */
  lemma OvertakenAnswerIsStale<T>(s: State<T>, was: T, now: T)
    requires Quiet(s) && s.remembered == Some(was) && was != now
    ensures var run := [Read, Remember(now), Broadcast, Answer];
      && Possible(s, run)
      && var end := Run(s, run);
      Quiet(end) && end.remembered == Some(now) && end.stream == s.stream + [now] + [was] && !Current(end)
  {
    var last: seq<Event<T>> := [Answer];
    var s1 := After(s, Read);
    var s2 := After(s1, Remember(now));
    var s3 := After(s2, Broadcast);
    Then(s3, Answer, []);
    Then(s2, Broadcast, last);
    Then(s1, Remember(now), [Broadcast] + last);
    Then(s, Read, [Remember(now)] + ([Broadcast] + last));
    assert [Read, Remember(now), Broadcast, Answer] == [Read] + ([Remember(now)] + ([Broadcast] + last));
    assert last + [] == last && [Answer] + [] == last;
  }

  lemma Then<T>(s: State<T>, e: Event<T>, rest: seq<Event<T>>)
    requires Enabled(s, e) && Possible(After(s, e), rest)
    ensures Possible(s, [e] + rest) && Run(s, [e] + rest) == Run(After(s, e), rest)
  {
    assert ([e] + rest)[1..] == rest;
  }
}
