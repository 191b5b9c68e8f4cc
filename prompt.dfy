/** The flat prompt a chat session sends to the completion service: the fixed
    system instruction, the transcript one entry per line, then the new user
    line and an open assistant cue. */
module Prompt {

  /** The fixed system instruction, line breaks and indentation included. */
  const SystemPrompt: string :=
    "You are a helpful AI assistant. The user's name is Peter. \n" +
    "        Always address him by name when appropriate. You're here to assist Peter with \n" +
    "        any questions or tasks he has. Be friendly, knowledgeable, and helpful."

  /** Every transcript entry followed by a line break, oldest first. */
  function RenderHistory(history: seq<string>): string {
    if history == [] then "" else history[0] + "\n" + RenderHistory(history[1..])
  }

  /** The user line and the open assistant cue that close every prompt. */
  function UserCue(userInput: string): string {
    "Peter: " + userInput + "\nAssistant:"
  }

  /** The prompt for `userInput` on top of `history`. */
  function FullPrompt(history: seq<string>, userInput: string): string {
    SystemPrompt + "\n\n" + RenderHistory(history) + UserCue(userInput)
  }

  /** Rendering two transcripts one after the other renders their concatenation. */
  lemma {:induction false} RenderHistoryConcat(a: seq<string>, b: seq<string>)
    ensures RenderHistory(a + b) == RenderHistory(a) + RenderHistory(b)
  {
    if a == [] {
      assert a + b == b;
    } else {
      assert (a + b)[1..] == a[1..] + b;
      RenderHistoryConcat(a[1..], b);
    }
  }

  /** Appending one entry appends exactly that entry and a line break. */
  lemma {:induction false} RenderHistoryAppend(history: seq<string>, entry: string)
    ensures RenderHistory(history + [entry]) == RenderHistory(history) + entry + "\n"
  {
    RenderHistoryConcat(history, [entry]);
    assert [entry][1..] == [];
  }

  /** Where entry `i` of the transcript starts in the rendering. */
  function EntryOffset(history: seq<string>, i: nat): nat
    requires i <= |history|
  {
    |RenderHistory(history[..i])|
  }

  /** Nothing is truncated or skipped: entry `i` appears whole at its offset,
      followed by a line break. */
  lemma {:induction false} EntryRendered(history: seq<string>, i: nat)
    requires i < |history|
    ensures EntryOffset(history, i) + |history[i]| < |RenderHistory(history)|
    ensures RenderHistory(history)[EntryOffset(history, i)..EntryOffset(history, i) + |history[i]|] == history[i]
    ensures RenderHistory(history)[EntryOffset(history, i) + |history[i]|] == '\n'
  {
    var before, entry, rest := history[..i], history[i], history[i + 1..];
    SplitAround(history, i);
    RenderAround(before, entry, rest);
    MiddleSlice(RenderHistory(before), entry, "\n" + RenderHistory(rest));
  }

  lemma {:induction false} SplitAround(history: seq<string>, i: nat)
    requires i < |history|
    ensures history == history[..i] + [history[i]] + history[i + 1..]
  {
  }

  /** An entry between two parts of the transcript is rendered between their
      renderings. */
  lemma {:induction false} RenderAround(before: seq<string>, entry: string, rest: seq<string>)
    ensures RenderHistory(before + [entry] + rest)
         == RenderHistory(before) + entry + ("\n" + RenderHistory(rest))
  {
    RenderHistoryConcat(before + [entry], rest);
    RenderHistoryAppend(before, entry);
    AppendRegroup(RenderHistory(before), entry, "\n", RenderHistory(rest));
  }

  /** The middle part of a three-part string sits right after the first. */
  lemma {:induction false} MiddleSlice(a: string, b: string, c: string)
    requires c != []
    ensures |a| + |b| < |a + b + c|
    ensures (a + b + c)[|a|..|a| + |b|] == b && (a + b + c)[|a| + |b|] == c[0]
  {
  }

  /** The rendering holds one character per entry character plus one line
      break per entry. */
  lemma {:induction false} RenderHistoryLength(history: seq<string>)
    ensures |RenderHistory(history)| == TotalLength(history) + |history|
  {
    if history != [] {
      RenderHistoryLength(history[1..]);
    }
  }

  function TotalLength(history: seq<string>): nat {
    if history == [] then 0 else |history[0]| + TotalLength(history[1..])
  }

  /** The two entries of an exchange, each with its line break, read as the
      user line, the open cue, and the reply after a space. */
  lemma {:induction false} ExchangeRendering(userInput: string, reply: string)
    ensures RenderHistory(["Peter: " + userInput, "Assistant: " + reply])
         == UserCue(userInput) + (" " + reply + "\n")
  {
    var user, assistant := "Peter: " + userInput, "Assistant: " + reply;
    RenderHistoryAppend([user], assistant);
    assert RenderHistory([user]) == user + "\n";
    assert "\n" + "Assistant: " == "\nAssistant:" + " ";
  }

  lemma {:induction false} Regroup(a: string, b: string, c: string, d: string, e: string)
    ensures a + (b + (c + d)) + e == a + b + c + d + e
  {
  }

  lemma {:induction false} AppendRegroup(a: string, b: string, c: string, d: string)
    ensures a + b + c + d == a + (b + c + d)
  {
  }

  /** A completed exchange continues the prompt that produced it: the prompt
      for the next line is the previous prompt, the reply after the open cue,
      a line break, and the next user line with its cue. */
  lemma {:induction false} PromptContinues(history: seq<string>, userInput: string, reply: string, nextInput: string)
    ensures FullPrompt(history + ["Peter: " + userInput, "Assistant: " + reply], nextInput)
         == FullPrompt(history, userInput) + (" " + reply + "\n") + UserCue(nextInput)
  {
    var exchange := ["Peter: " + userInput, "Assistant: " + reply];
    RenderHistoryConcat(history, exchange);
    ExchangeRendering(userInput, reply);
    Regroup(SystemPrompt + "\n\n", RenderHistory(history), UserCue(userInput), " " + reply + "\n", UserCue(nextInput));
  }
}
