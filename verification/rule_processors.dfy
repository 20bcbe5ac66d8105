/** The rule pipeline. A rule maps one game event to the list of events it passes on
    (Rule.process); a batch goes through one rule as the concatenation of the rule's
    outputs for each event, and through a rule list by threading the whole batch from
    each rule to the next. Events are of an arbitrary type `E`. */
module RuleProcessors {
  import opened Wrappers

  /** processEventsForRule: the rule's outputs for each event, concatenated in input order. */
  function ProcessEventsForRule<E(!new)>(events: seq<E>, rule: E -> seq<E>): (r: seq<E>)
    ensures events == [] ==> r == []
    ensures forall x :: x in r <==> exists i :: 0 <= i < |events| && x in rule(events[i])
    decreases |events|
  {
    if events == [] then []
    else
      var rest := ProcessEventsForRule(events[1..], rule);
      assert forall x :: x in rest <==> exists i :: 1 <= i < |events| && x in rule(events[i]) by {
        forall x | x in rest ensures exists i :: 1 <= i < |events| && x in rule(events[i]) {
          var j :| 0 <= j < |events[1..]| && x in rule(events[1..][j]);
          assert events[1..][j] == events[j + 1];
        }
        forall x | (exists i :: 1 <= i < |events| && x in rule(events[i])) ensures x in rest {
          var i :| 1 <= i < |events| && x in rule(events[i]);
          assert events[1..][i - 1] == events[i];
        }
      }
      rule(events[0]) + rest
  }

  /** A batch splits: the output for a + b is the output for a followed by that for b. */
  lemma {:induction false} ProcessEventsForRuleAppend<E(!new)>(a: seq<E>, b: seq<E>, rule: E -> seq<E>)
    ensures ProcessEventsForRule(a + b, rule) == ProcessEventsForRule(a, rule) + ProcessEventsForRule(b, rule)
    decreases |a|
  {
    if a == [] {
      assert a + b == b;
    } else {
      assert (a + b)[0] == a[0];
      assert (a + b)[1..] == a[1..] + b;
      ProcessEventsForRuleAppend(a[1..], b, rule);
    }
  }

  /** A singleton batch yields exactly the rule's output for that event. */
  lemma ProcessSingleton<E(!new)>(e: E, rule: E -> seq<E>)
    ensures ProcessEventsForRule([e], rule) == rule(e)
  {
    assert [e][1..] == [];
  }

  /** processEventsForRules: rule i's entire output is rule i+1's entire input; the value
      is what the last rule produced. */
  function ProcessEventsForRules<E(!new)>(rules: seq<E -> seq<E>>, events: seq<E>): (r: seq<E>)
    ensures rules == [] ==> r == events
    decreases |rules|
  {
    if rules == [] then events
    else ProcessEventsForRules(rules[1..], ProcessEventsForRule(events, rules[0]))
  }

  /** Running two rule lists one after the other is running their concatenation. */
  lemma {:induction false} ProcessEventsForRulesCompose<E(!new)>(rs1: seq<E -> seq<E>>, rs2: seq<E -> seq<E>>, events: seq<E>)
    ensures ProcessEventsForRules(rs1 + rs2, events)
            == ProcessEventsForRules(rs2, ProcessEventsForRules(rs1, events))
    decreases |rs1|
  {
    if rs1 == [] {
      assert rs1 + rs2 == rs2;
    } else {
      assert (rs1 + rs2)[0] == rs1[0];
      assert (rs1 + rs2)[1..] == rs1[1..] + rs2;
      ProcessEventsForRulesCompose(rs1[1..], rs2, ProcessEventsForRule(events, rs1[0]));
    }
  }

  /** The last rule receives everything the rules before it let through. */
  lemma LastRuleSeesAll<E(!new)>(rs: seq<E -> seq<E>>, last: E -> seq<E>, events: seq<E>)
    ensures ProcessEventsForRules(rs + [last], events)
            == ProcessEventsForRule(ProcessEventsForRules(rs, events), last)
  {
    ProcessEventsForRulesCompose(rs, [last], events);
    assert [last][1..] == [];
  }

  /** An empty batch stays empty through any rule list. */
  lemma {:induction false} EmptyBatchStaysEmpty<E(!new)>(rules: seq<E -> seq<E>>)
    ensures ProcessEventsForRules(rules, []) == []
    decreases |rules|
  {
    if rules != [] {
      EmptyBatchStaysEmpty(rules[1..]);
    }
  }

  /** Once the first k rules have dropped every event, every later rule receives the empty
      batch and the chain's value is empty. */
  lemma DroppedBatchStaysDropped<E(!new)>(rules: seq<E -> seq<E>>, events: seq<E>, k: nat)
    requires k <= |rules|
    requires ProcessEventsForRules(rules[..k], events) == []
    ensures ProcessEventsForRules(rules, events) == []
  {
    assert rules == rules[..k] + rules[k..];
    ProcessEventsForRulesCompose(rules[..k], rules[k..], events);
    EmptyBatchStaysEmpty(rules[k..]);
  }

  /** Because every rule works event by event, a batch through a rule list gives the same
      output as its two halves processed separately, one after the other. */
  lemma {:induction false} ProcessEventsForRulesAppend<E(!new)>(rules: seq<E -> seq<E>>, a: seq<E>, b: seq<E>)
    ensures ProcessEventsForRules(rules, a + b)
            == ProcessEventsForRules(rules, a) + ProcessEventsForRules(rules, b)
    decreases |rules|
  {
    if rules != [] {
      ProcessEventsForRuleAppend(a, b, rules[0]);
      ProcessEventsForRulesAppend(rules[1..], ProcessEventsForRule(a, rules[0]), ProcessEventsForRule(b, rules[0]));
    }
  }

  /** What one iteration of the consumer loop does with a dequeued value: the main chain's
      output (None for a null event, which is only logged), the interval chain's output
      (None when it did not run) and whether the interval timer was reset. */
  datatype Step<E(!new)> = Step(main: Option<seq<E>>, interval: Option<seq<E>>, timerReset: bool)

  /** One iteration of run(): a non-null event goes through the main chain as a singleton
      batch; then, only if the interval timer has expired, the timer is reset and the same
      singleton goes through the interval chain. */
  function RunStep<E(!new)>(msg: Option<E>, rules: seq<E -> seq<E>>, intervalRules: seq<E -> seq<E>>,
                      timerExpired: bool): (s: Step<E>)
    ensures msg.None? ==> s == Step(None, None, false)
    ensures msg.Some? ==> s.main == Some(ProcessEventsForRules(rules, [msg.value]))
    ensures s.timerReset <==> msg.Some? && timerExpired
    ensures s.interval.Some? <==> s.timerReset
    ensures s.interval.Some? ==> s.interval.value == ProcessEventsForRules(intervalRules, [msg.value])
  {
    match msg
    case None => Step(None, None, false)
    case Some(e) =>
      var main := ProcessEventsForRules(rules, [e]);
      if timerExpired then
        Step(Some(main), Some(ProcessEventsForRules(intervalRules, [e])), true)
      else
        Step(Some(main), None, false)
  }

  /** The consumer loop over the values taken from the queue, in order; `expired[i]` is the
      interval timer's answer when the i-th value is handled. */
  function Drain<E(!new)>(queue: seq<Option<E>>, rules: seq<E -> seq<E>>, intervalRules: seq<E -> seq<E>>,
                    expired: seq<bool>): (steps: seq<Step<E>>)
    requires |expired| == |queue|
    ensures |steps| == |queue|
    ensures forall i :: 0 <= i < |queue| ==> steps[i] == RunStep(queue[i], rules, intervalRules, expired[i])
  {
    seq(|queue|, i requires 0 <= i < |queue| => RunStep(queue[i], rules, intervalRules, expired[i]))
  }

  /** The non-null values of the queue, in order. */
  function NonNull<E(!new)>(queue: seq<Option<E>>): (es: seq<E>)
    ensures |es| <= |queue|
  {
    if queue == [] then []
    else (if queue[0].Some? then [queue[0].value] else []) + NonNull(queue[1..])
  }

  /** The main chain's outputs, concatenated in step order. */
  function MainOutputs<E(!new)>(steps: seq<Step<E>>): seq<E> {
    if steps == [] then []
    else steps[0].main.GetOr([]) + MainOutputs(steps[1..])
  }

  /** Handling the queue one event at a time through the main chain produces, in all,
      exactly what the chain would produce for the whole stream of non-null events as one
      batch: null events are skipped and nothing is lost, duplicated or reordered. */
  lemma {:induction false} DrainMatchesBatch<E(!new)>(queue: seq<Option<E>>, rules: seq<E -> seq<E>>,
                                                intervalRules: seq<E -> seq<E>>, expired: seq<bool>)
    requires |expired| == |queue|
    ensures MainOutputs(Drain(queue, rules, intervalRules, expired)) == ProcessEventsForRules(rules, NonNull(queue))
    decreases |queue|
  {
    var steps := Drain(queue, rules, intervalRules, expired);
    if queue == [] {
      EmptyBatchStaysEmpty(rules);
    } else {
      var tail := Drain(queue[1..], rules, intervalRules, expired[1..]);
      assert steps[1..] == tail;
      DrainMatchesBatch(queue[1..], rules, intervalRules, expired[1..]);
      var head: seq<E> := if queue[0].Some? then [queue[0].value] else [];
      ProcessEventsForRulesAppend(rules, head, NonNull(queue[1..]));
      if queue[0].None? {
        EmptyBatchStaysEmpty(rules);
      }
    }
  }

  /** configRules: configRule is called once for every rule, the main list first and then
      the interval list, each in list order; the result is the sequence of calls. */
  method ConfigRules<R>(rules: seq<R>, intervalRules: seq<R>) returns (configured: seq<R>)
    ensures configured == rules + intervalRules
  {
    configured := [];
    var i := 0;
    while i < |rules|
      invariant 0 <= i <= |rules|
      invariant configured == rules[..i]
    {
      configured := configured + [rules[i]];
      i := i + 1;
    }
    var j := 0;
    while j < |intervalRules|
      invariant 0 <= j <= |intervalRules|
      invariant configured == rules + intervalRules[..j]
    {
      configured := configured + [intervalRules[j]];
      j := j + 1;
    }
  }
}
