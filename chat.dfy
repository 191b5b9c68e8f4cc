/** The chat session: a transcript kept in memory, the prompt built from it,
    one call to the completion service per forwarded line, and the console
    loop that drives it. The service itself is not modelled: its answer to a
    call is given to the session as a `Reply`. */
module Chat {
  import opened Prompt
  import opened Diagnostics
  import opened Console

  /** What the completion service gives back for one prompt: the reply text,
      or a failure with its error text. */
  datatype Reply = Ok(text: string) | Err(message: string)

  /** The two transcript entries a successful exchange adds, user line first. */
  function Exchange(userInput: string, text: string): seq<string> {
    ["Peter: " + userInput, "Assistant: " + text]
  }

  /** The transcript after one call: extended by the exchange on success,
      untouched on failure. */
  function HistoryAfter(history: seq<string>, userInput: string, reply: Reply): seq<string> {
    match reply
    case Ok(text) => history + Exchange(userInput, text)
    case Err(_) => history
  }

  /** What one call returns to the console: the reply text, or the diagnostic. */
  function Answer(reply: Reply): string {
    match reply
    case Ok(text) => text
    case Err(message) => Diagnose(message)
  }

  /** A transcript together with the answers printed so far. */
  datatype Outcome = Outcome(history: seq<string>, answers: seq<string>)

  /** One line the loop reads and does not stop at: the transcript after it
      and the answers it prints (none, or one for a forwarded line). The
      `Exit` arm only makes the match total: `RunFrom` and `HandleLine` stop
      before taking a step on an `exit` line. */
  function Step(history: seq<string>, line: string, reply: Reply): Outcome {
    match Dispatch(line)
    case Exit => Outcome(history, [])
    case Clear => Outcome([], [])
    case Ignore => Outcome(history, [])
    case Forward(userInput) => Outcome(HistoryAfter(history, userInput, reply), [Answer(reply)])
  }

  /** The console loop over `events`, each a line read together with the reply
      the service gives if that line is forwarded. The loop stops at `exit` or
      when the lines run out. */
  function RunFrom(history: seq<string>, events: seq<(string, Reply)>): Outcome
    decreases |events|
  {
    if events == [] || Dispatch(events[0].0) == Exit then
      Outcome(history, [])
    else
      var step := Step(history, events[0].0, events[0].1);
      var rest := RunFrom(step.history, events[1..]);
      Outcome(rest.history, step.answers + rest.answers)
  }

  // ---------------------------------------------------------------------------
  // The session object
  // ---------------------------------------------------------------------------

  class GPT5Chat {
    /** The transcript, oldest entry first. */
    var conversationHistory: seq<string>

    constructor ()
      ensures conversationHistory == []
    {
      conversationHistory := [];
    }

    /** Appends one entry at the end; earlier entries stay as they are. */
    method AddMessage(content: string)
      modifies this
      ensures conversationHistory == old(conversationHistory) + [content]
    {
      conversationHistory := conversationHistory + [content];
    }

    /** Builds the prompt for `userInput` entry by entry. */
    method BuildPrompt(userInput: string) returns (fullPrompt: string)
      ensures fullPrompt == FullPrompt(conversationHistory, userInput)
    {
      var history := conversationHistory;
      fullPrompt := SystemPrompt + "\n\n";
      ghost var header := fullPrompt;
      for i := 0 to |history|
        invariant fullPrompt == header + RenderHistory(history[..i])
      {
        RenderHistoryAppend(history[..i], history[i]);
        assert history[..i + 1] == history[..i] + [history[i]];
        AppendRegroup(header, RenderHistory(history[..i]), history[i], "\n");
        fullPrompt := fullPrompt + history[i] + "\n";
      }
      assert history[..|history|] == history;
      fullPrompt := fullPrompt + UserCue(userInput);
    }

    /** One exchange. `prompt` is what is sent to the service, built from the
        transcript before the call; `reply` is what the service gave back. The
        transcript is extended only once a reply has arrived. */
    method GetResponse(userInput: string, reply: Reply) returns (prompt: string, answer: string)
      modifies this
      ensures prompt == FullPrompt(old(conversationHistory), userInput)
      ensures reply.Ok? ==>
        conversationHistory == old(conversationHistory) + ["Peter: " + userInput, "Assistant: " + reply.text] &&
        answer == reply.text
      ensures reply.Err? ==>
        conversationHistory == old(conversationHistory) && answer == Diagnose(reply.message)
      ensures conversationHistory == HistoryAfter(old(conversationHistory), userInput, reply)
      ensures answer == Answer(reply)
    {
      prompt := BuildPrompt(userInput);
      match reply
      case Ok(assistantMessage) =>
        AddMessage("Peter: " + userInput);
        AddMessage("Assistant: " + assistantMessage);
        answer := assistantMessage;
      case Err(errorMsg) =>
        if Text.Contains(errorMsg, QuotaMarker) || Text.Contains(errorMsg, RateLimitMarker) {
          answer := QuotaMessage;
        } else {
          answer := "Error: " + errorMsg;
        }
    }

    /** Empties the transcript, whatever it held. */
    method ClearHistory()
      modifies this
      ensures conversationHistory == []
    {
      conversationHistory := [];
    }

    /** One pass of the console loop on `line`: stop at `exit`, clear on
        `clear`, skip a blank line, otherwise forward the stripped line and
        print the answer. */
    method HandleLine(line: string, reply: Reply) returns (stop: bool, printed: seq<string>)
      modifies this
      ensures stop <==> Dispatch(line) == Exit
      ensures stop ==> conversationHistory == old(conversationHistory) && printed == []
      ensures !stop ==> Outcome(conversationHistory, printed) == Step(old(conversationHistory), line, reply)
    {
      var userInput := Text.Strip(line);
      stop, printed := false, [];
      if Text.Lower(userInput) == "exit" {
        stop := true;
      } else if Text.Lower(userInput) == "clear" {
        ClearHistory();
      } else if userInput != [] {
        var _, answer := GetResponse(userInput, reply);
        printed := [answer];
      }
    }

    /** The console loop: reads the lines of `events` in order and returns the
        answers it prints. */
    method Run(events: seq<(string, Reply)>) returns (answers: seq<string>)
      modifies this
      ensures Outcome(conversationHistory, answers) == RunFrom(old(conversationHistory), events)
    {
      ghost var start := conversationHistory;
      answers := [];
      var i := 0;
      while i < |events|
        invariant 0 <= i <= |events|
        invariant RunFrom(start, events) ==
          Outcome(RunFrom(conversationHistory, events[i..]).history,
                  answers + RunFrom(conversationHistory, events[i..]).answers)
      {
        ghost var before := conversationHistory;
        var stop, printed := HandleLine(events[i].0, events[i].1);
        if stop {
          RunFromStops(before, events, i);
          break;
        }
        RunFromContinues(before, events, i);
        AppendAssoc(answers, printed, RunFrom(conversationHistory, events[i + 1..]).answers);
        answers := answers + printed;
        i := i + 1;
      }
      if i == |events| {
        RunFromStops(conversationHistory, events, i);
      }
    }
  }

  /** The loop reads nothing more once the lines run out or `exit` is read. */
  lemma {:induction false} RunFromStops(history: seq<string>, events: seq<(string, Reply)>, i: nat)
    requires i <= |events| && (i == |events| || Dispatch(events[i].0) == Exit)
    ensures RunFrom(history, events[i..]) == Outcome(history, [])
  {
    if i < |events| {
      assert events[i..][0] == events[i];
    }
  }

  /** Any other line is one `Step`, and the loop carries on after it. */
  lemma {:induction false} RunFromContinues(history: seq<string>, events: seq<(string, Reply)>, i: nat)
    requires i < |events| && Dispatch(events[i].0) != Exit
    ensures var step := Step(history, events[i].0, events[i].1);
      var rest := RunFrom(step.history, events[i + 1..]);
      RunFrom(history, events[i..]) == Outcome(rest.history, step.answers + rest.answers)
  {
    var tail := events[i..];
    assert tail[0] == events[i] && tail[1..] == events[i + 1..];
  }

  lemma {:induction false} AppendAssoc(a: seq<string>, b: seq<string>, c: seq<string>)
    ensures a + (b + c) == a + b + c
  {
  }

  // ---------------------------------------------------------------------------
  // Properties of the console loop
  // ---------------------------------------------------------------------------

  /** Entries alternate: user lines at even positions, assistant lines at odd
      ones, and the transcript ends on an assistant line. */
  predicate WellFormed(history: seq<string>) {
    |history| % 2 == 0 &&
    forall k :: 0 <= k < |history| ==>
      if k % 2 == 0 then "Peter: " <= history[k] else "Assistant: " <= history[k]
  }

  /** One call keeps the transcript alternating. */
  lemma {:induction false} HistoryAfterWellFormed(history: seq<string>, userInput: string, reply: Reply)
    requires WellFormed(history)
    ensures WellFormed(HistoryAfter(history, userInput, reply))
  {
    if reply.Ok? {
      var h := HistoryAfter(history, userInput, reply);
      forall k | 0 <= k < |h|
        ensures if k % 2 == 0 then "Peter: " <= h[k] else "Assistant: " <= h[k]
      {
        if k >= |history| {
          assert h[k] == Exchange(userInput, reply.text)[k - |history|];
        }
      }
    }
  }

  /** A run of the loop keeps the transcript alternating. */
  lemma {:induction false} RunWellFormed(history: seq<string>, events: seq<(string, Reply)>)
    requires WellFormed(history)
    ensures WellFormed(RunFrom(history, events).history)
    decreases |events|
  {
    if events != [] && Dispatch(events[0].0) != Exit {
      var step := Step(history, events[0].0, events[0].1);
      if Dispatch(events[0].0).Forward? {
        HistoryAfterWellFormed(history, Dispatch(events[0].0).text, events[0].1);
      }
      RunWellFormed(step.history, events[1..]);
    }
  }

  /** Without a `clear` nothing is ever removed: the transcript before the run
      is a prefix of the transcript after it. */
  lemma {:induction false} RunOnlyAppends(history: seq<string>, events: seq<(string, Reply)>)
    requires forall k :: 0 <= k < |events| ==> Dispatch(events[k].0) != Clear
    ensures history <= RunFrom(history, events).history
    decreases |events|
  {
    if events != [] && Dispatch(events[0].0) != Exit {
      var tail := events[1..];
      assert Dispatch(events[0].0) != Clear;
      assert forall k :: 0 <= k < |tail| ==> tail[k] == events[k + 1];
      var step := Step(history, events[0].0, events[0].1);
      assert history <= step.history;
      RunOnlyAppends(step.history, tail);
    }
  }

  /** Lines after an `exit` are never read. */
  lemma {:induction false} RunStopsAtExit(history: seq<string>, events: seq<(string, Reply)>, k: nat)
    requires k < |events| && Dispatch(events[k].0) == Exit
    ensures RunFrom(history, events) == RunFrom(history, events[..k])
    decreases k
  {
    var prefix := events[..k];
    if k == 0 {
      assert prefix == [];
    } else if Dispatch(events[0].0) != Exit {
      var tail := events[1..];
      assert prefix[0] == events[0] && prefix[1..] == tail[..k - 1];
      assert tail[k - 1] == events[k];
      RunStopsAtExit(Step(history, events[0].0, events[0].1).history, tail, k - 1);
    } else {
      assert prefix[0] == events[0];
    }
  }

  /** The entries a run of forwarded lines adds: one exchange per line that
      got a reply, none for a line whose call failed. */
  function Exchanges(events: seq<(string, Reply)>): seq<string> {
    if events == [] then []
    else
      var added := match events[0].1
        case Ok(text) => Exchange(Text.Strip(events[0].0), text)
        case Err(_) => [];
      added + Exchanges(events[1..])
  }

  /** When every call got a reply, exchange `k` sits at positions `2k` and
      `2k + 1`. */
  lemma {:induction false} ExchangesAt(events: seq<(string, Reply)>, k: nat)
    requires forall j :: 0 <= j < |events| ==> events[j].1.Ok?
    requires k < |events|
    ensures |Exchanges(events)| == 2 * |events|
    ensures Exchanges(events)[2 * k] == "Peter: " + Text.Strip(events[k].0)
    ensures Exchanges(events)[2 * k + 1] == "Assistant: " + events[k].1.text
    decreases k
  {
    var tail := events[1..];
    assert events[0].1.Ok?;
    var head := Exchange(Text.Strip(events[0].0), events[0].1.text);
    var rest := Exchanges(tail);
    assert Exchanges(events) == head + rest;
    ExchangesLength(events);
    if k > 0 {
      assert forall j :: 0 <= j < |tail| ==> tail[j] == events[j + 1];
      ExchangesAt(tail, k - 1);
      assert (head + rest)[2 * k] == rest[2 * (k - 1)];
      assert (head + rest)[2 * k + 1] == rest[2 * (k - 1) + 1];
    }
  }

  lemma {:induction false} ExchangesLength(events: seq<(string, Reply)>)
    requires forall j :: 0 <= j < |events| ==> events[j].1.Ok?
    ensures |Exchanges(events)| == 2 * |events|
    decreases |events|
  {
    if events != [] {
      assert events[0].1.Ok?;
      assert forall j :: 0 <= j < |events[1..]| ==> events[1..][j] == events[j + 1];
      ExchangesLength(events[1..]);
    }
  }

  /** Every line forwarded: the transcript grows by the exchanges that got a
      reply, in order, and one answer is printed per line, in order. */
  lemma {:induction false} RunForwardedLines(history: seq<string>, events: seq<(string, Reply)>)
    requires forall k :: 0 <= k < |events| ==> Dispatch(events[k].0).Forward?
    ensures RunFrom(history, events).history == history + Exchanges(events)
    ensures |RunFrom(history, events).answers| == |events|
    ensures forall k :: 0 <= k < |events| ==> RunFrom(history, events).answers[k] == Answer(events[k].1)
    decreases |events|
  {
    if events != [] {
      var tail := events[1..];
      var next := HistoryAfter(history, Text.Strip(events[0].0), events[0].1);
      assert forall k :: 0 <= k < |tail| ==> tail[k] == events[k + 1];
      RunForwardedLines(next, tail);
      RunFromForwarded(history, events);
      ExchangesCons(history, events);
      var answers, rest := RunFrom(history, events).answers, RunFrom(next, tail).answers;
      forall k | 0 <= k < |events| ensures answers[k] == Answer(events[k].1) {
        if k > 0 {
          assert answers[k] == rest[k - 1];
        }
      }
    }
  }

  /** A forwarded first line is one call, and the loop carries on after it. */
  lemma {:induction false} RunFromForwarded(history: seq<string>, events: seq<(string, Reply)>)
    requires events != [] && Dispatch(events[0].0).Forward?
    ensures var rest := RunFrom(HistoryAfter(history, Text.Strip(events[0].0), events[0].1), events[1..]);
      RunFrom(history, events) == Outcome(rest.history, [Answer(events[0].1)] + rest.answers)
  {
  }

  /** The entries of the first exchange come right before those of the rest. */
  lemma {:induction false} ExchangesCons(history: seq<string>, events: seq<(string, Reply)>)
    requires events != []
    ensures HistoryAfter(history, Text.Strip(events[0].0), events[0].1) + Exchanges(events[1..])
         == history + Exchanges(events)
  {
    match events[0].1
    case Ok(text) =>
      AppendAssoc(history, Exchange(Text.Strip(events[0].0), text), Exchanges(events[1..]));
    case Err(_) =>
      assert Exchanges(events) == [] + Exchanges(events[1..]);
  }

  /** Every line forwarded and answered: the transcript grows by exactly two
      entries per line, user line first, and each reply is printed as it came. */
  lemma {:induction false} RunAllAnswered(history: seq<string>, events: seq<(string, Reply)>, k: nat)
    requires forall j :: 0 <= j < |events| ==> Dispatch(events[j].0).Forward? && events[j].1.Ok?
    requires k < |events|
    ensures var out := RunFrom(history, events);
      |out.history| == |history| + 2 * |events| &&
      out.history[..|history|] == history &&
      |out.answers| == |events| &&
      out.history[|history| + 2 * k] == "Peter: " + Dispatch(events[k].0).text &&
      out.history[|history| + 2 * k + 1] == "Assistant: " + events[k].1.text &&
      out.answers[k] == events[k].1.text
  {
    RunForwardedLines(history, events);
    ExchangesAt(events, k);
    var added := Exchanges(events);
    assert (history + added)[|history| + 2 * k] == added[2 * k];
    assert (history + added)[|history| + 2 * k + 1] == added[2 * k + 1];
  }

  /** Nothing cleared and no reply arrives: the transcript is exactly as it
      was, and every printed answer is a diagnostic. */
  lemma {:induction false} RunAllFailed(history: seq<string>, events: seq<(string, Reply)>)
    requires forall k :: 0 <= k < |events| ==> Dispatch(events[k].0) != Clear && events[k].1.Err?
    ensures RunFrom(history, events).history == history
    ensures forall a :: a in RunFrom(history, events).answers ==>
      exists k :: 0 <= k < |events| && a == Diagnose(events[k].1.message)
    decreases |events|
  {
    if events != [] && Dispatch(events[0].0) != Exit {
      var tail := events[1..];
      assert Dispatch(events[0].0) != Clear && events[0].1.Err?;
      assert forall k :: 0 <= k < |tail| ==> tail[k] == events[k + 1];
      var step := Step(history, events[0].0, events[0].1);
      assert step.history == history;
      RunAllFailed(history, tail);
      var rest := RunFrom(history, tail);
      forall a | a in RunFrom(history, events).answers
        ensures exists k :: 0 <= k < |events| && a == Diagnose(events[k].1.message)
      {
        if a in rest.answers {
          var j :| 0 <= j < |tail| && a == Diagnose(tail[j].1.message);
          assert tail[j] == events[j + 1];
        } else {
          assert a in step.answers;
          assert a == Diagnose(events[0].1.message);
        }
      }
    }
  }
}
