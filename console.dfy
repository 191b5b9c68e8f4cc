/** The decision the console loop takes on each line it reads. */
module Console {
  import opened Text

  /** What the loop does with one line of input. */
  datatype Command =
    | Exit                   // leave the loop
    | Clear                  // reset the transcript and read on
    | Ignore                 // blank line: read on, nothing changes
    | Forward(text: string)  // hand the stripped line to the session

  /** The stripped line is compared, lower-cased, with `exit`, then with
      `clear`; a blank line is skipped; anything else is forwarded. */
  function Dispatch(line: string): (c: Command)
    ensures c == Exit <==> Lower(Strip(line)) == "exit"
    ensures c == Clear <==> Lower(Strip(line)) == "clear"
    ensures c == Ignore <==> Strip(line) == []
    ensures c.Forward? ==> c.text == Strip(line)
  {
    var userInput := Strip(line);
    if Lower(userInput) == "exit" then Exit
    else if Lower(userInput) == "clear" then Clear
    else if userInput == [] then Ignore
    else Forward(userInput)
  }

  /** A forwarded text is non-blank, carries no surrounding whitespace, and
      would be forwarded unchanged if it were typed again. */
  lemma {:induction false} ForwardedTextIsStable(line: string)
    requires Dispatch(line).Forward?
    ensures var t := Dispatch(line).text;
      t != [] && !IsSpace(t[0]) && !IsSpace(t[|t| - 1]) && Dispatch(t) == Forward(t)
  {
    StripSpec(line);
    StripIdempotent(line);
  }

  /** Whitespace typed around a line never changes what the loop does. */
  lemma {:induction false} DispatchIgnoresPadding(pre: string, line: string, post: string)
    requires AllSpace(pre) && AllSpace(post)
    ensures Dispatch(pre + line + post) == Dispatch(line)
  {
    StripIgnoresPadding(pre, line, post);
  }

  /** A blank line is skipped, and other lines are forwarded without their
      padding. */
  lemma {:induction false} BlankScenario()
    ensures Dispatch("  ") == Ignore
  {
    assert "  " == " " + [] + " ";
    DispatchIgnoresPadding(" ", [], " ");
    StripKeepsTrimmed([]);
  }

  lemma {:induction false} ForwardScenario()
    ensures Dispatch(" Hi ") == Forward("Hi")
  {
    assert " Hi " == " " + "Hi" + " ";
    DispatchIgnoresPadding(" ", "Hi", " ");
    StripKeepsTrimmed("Hi");
  }
}
