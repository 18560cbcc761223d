/** The built-in terminal's command interpreter (`Terminal.handleCommand`):
    a scrollback of lines and the current input, a handful of keyword
    commands matched without regard to case, `echo`, and an error line for
    everything else. */
module Terminal {
  import opened Text

  /** The three lines a fresh terminal shows, and that `clear` restores. */
  const Welcome: seq<string> :=
    ["Welcome to Napoleon Terminal", "Type 'help' for available commands", ""]

  const HelpText := "Available commands: help, clear, ls, pwd, echo [text]"
  const LsText := "src/  components/  lib/  public/  package.json  README.md"
  const PwdText := "/Users/napoleon/workspace"
  const NotFoundPrefix := "Command not found: "

  datatype Console = Console(history: seq<string>, input: string)

  const Fresh := Console(Welcome, "")

  /** What a non-blank trimmed command does: reset the scrollback, or print one line. */
  datatype Reply = ClearScreen | Say(line: string)

  /** The `switch` on the lower-cased command, then `echo ` (case-sensitive)
      or the not-found message. */
  function ReplyTo(trimmed: string): (r: Reply)
    ensures r.ClearScreen? <==> ToLower(trimmed) == "clear"
  {
    var key := ToLower(trimmed);
    if key == "help" then Say(HelpText)
    else if key == "clear" then ClearScreen
    else if key == "ls" then Say(LsText)
    else if key == "pwd" then Say(PwdText)
    else if StartsWith(trimmed, "echo ") then Say(trimmed[5..])
    else Say(NotFoundPrefix + trimmed)
  }

  /** The effect of one Enter press, decided from the command text alone. */
  datatype Outcome = Blank | Clear | Show(prompt: string, reply: string)

  /** Classifies a command: blank after trimming, `clear` in any case, or a
      prompt line echoing the trimmed command followed by its reply. */
  function Interpret(command: string): (o: Outcome)
    ensures o.Blank? <==> IsBlank(command)
    ensures o.Clear? <==> !IsBlank(command) && ToLower(Trim(command)) == "clear"
    ensures o.Show? ==> o.prompt == "$ " + Trim(command)
  {
    var t := Trim(command);
    if t == "" then Blank
    else match ReplyTo(t)
      case ClearScreen => Clear
      case Say(line) => Show("$ " + t, line)
  }

  /** The lines an outcome other than `clear` adds to the scrollback. */
  function Entry(o: Outcome): (lines: seq<string>)
    requires !o.Clear?
  {
    if o.Blank? then ["$ ", ""] else [o.prompt, o.reply, ""]
  }

  /** Applies an outcome: a blank command adds a bare prompt and leaves the
      input as it was; `clear` restores the welcome screen; anything else
      appends its entry and empties the input. */
  function Apply(c: Console, o: Outcome): (r: Console)
    ensures o.Clear? ==> r == Fresh
    ensures !o.Clear? ==> r.history == c.history + Entry(o)
  {
    match o
    case Blank => c.(history := c.history + ["$ ", ""])
    case Clear => Fresh
    case Show(prompt, reply) => Console(c.history + [prompt, reply, ""], "")
  }

  /** Pressing Enter with `command` in the input line. */
  function HandleCommand(c: Console, command: string): (r: Console)
    ensures IsBlank(command) ==> r.input == c.input
    ensures !IsBlank(command) ==> r.input == ""
    ensures Interpret(command).Clear? ==> r == Fresh
  {
    Apply(c, Interpret(command))
  }

  /** Except for `clear`, a command never rewrites what is already on screen:
      the old scrollback stays a prefix and grows by two or three lines. */
  lemma ScrollbackOnlyGrows(c: Console, command: string)
    requires !Interpret(command).Clear?
    ensures var h := HandleCommand(c, command).history;
      h[..|c.history|] == c.history
      && |h| == |c.history| + (if IsBlank(command) then 2 else 3)
  {
  }

  /** The keyword commands ignore case: `HELP`, `Ls`, `pWd` and `CLEAR`
      behave like their lower-case spellings. */
  lemma KeywordsIgnoreCase(c: Console, command: string)
    ensures ToLower(Trim(command)) == "help" ==>
      HandleCommand(c, command).history == c.history + ["$ " + Trim(command), HelpText, ""]
    ensures ToLower(Trim(command)) == "ls" ==>
      HandleCommand(c, command).history == c.history + ["$ " + Trim(command), LsText, ""]
    ensures ToLower(Trim(command)) == "pwd" ==>
      HandleCommand(c, command).history == c.history + ["$ " + Trim(command), PwdText, ""]
    ensures ToLower(Trim(command)) == "clear" ==> HandleCommand(c, command) == Fresh
  {
  }

  /** Anything that is neither a keyword in any case nor starts with
      `echo ` is echoed after the prompt and reported as not found. */
  lemma UnknownCommandNotFound(c: Console, command: string)
    requires !IsBlank(command) && !StartsWith(Trim(command), "echo ")
    requires ToLower(Trim(command)) != "help" && ToLower(Trim(command)) != "clear"
    requires ToLower(Trim(command)) != "ls" && ToLower(Trim(command)) != "pwd"
    ensures HandleCommand(c, command).history
      == c.history + ["$ " + Trim(command), NotFoundPrefix + Trim(command), ""]
    ensures HandleCommand(c, command).input == ""
  {
  }

  /** `echo` prints its argument, with the surrounding whitespace of the
      whole command trimmed away. */
  lemma EchoRepeatsText(c: Console, text: string)
    requires text != "" && !IsJsSpace(text[0]) && !IsJsSpace(text[|text| - 1])
    ensures HandleCommand(c, "echo " + text).history
      == c.history + ["$ echo " + text, text, ""]
  {
    var command := "echo " + text;
    assert command[|command| - 1] == text[|text| - 1];
    TrimUntouched(command);
    assert command[..5] == "echo " && command[5..] == text;
    NoKeywordStartsWithE(command);
    assert "$ " + command == "$ echo " + text;
  }

  /** `echo` is case-sensitive: `ECHO hi` is reported as an unknown command
      although the keyword commands ignore case. */
  lemma EchoIsCaseSensitive(c: Console, text: string)
    requires text != "" && !IsJsSpace(text[0]) && !IsJsSpace(text[|text| - 1])
    ensures HandleCommand(c, "ECHO " + text).history
      == c.history + ["$ ECHO " + text, NotFoundPrefix + "ECHO " + text, ""]
  {
    var command := "ECHO " + text;
    assert command[|command| - 1] == text[|text| - 1];
    TrimUntouched(command);
    assert command[..5] == "ECHO ";
    NoKeywordStartsWithE(command);
    assert "$ " + command == "$ ECHO " + text;
    assert NotFoundPrefix + command == NotFoundPrefix + "ECHO " + text;
  }

  /** A command of five or more characters whose first letter lower-cases
      to `e` is no keyword, so only the case-sensitive `echo ` prefix
      decides between echoing and the not-found line. */
  lemma NoKeywordStartsWithE(command: string)
    requires |command| >= 5 && (command[0] == 'e' || command[0] == 'E')
    ensures StartsWith(command, "echo ") ==> ReplyTo(command) == Say(command[5..])
    ensures !StartsWith(command, "echo ") ==> ReplyTo(command) == Say(NotFoundPrefix + command)
  {
    assert ToLower(command)[0] == 'e';
  }

  /** `echo` needs an argument: the space after a bare `echo` is trimmed
      away before matching, so it is reported as unknown. */
  lemma BareEchoIsUnknown(c: Console)
    ensures HandleCommand(c, "echo ").history
      == c.history + ["$ echo", "Command not found: echo", ""]
  {
    BareEchoTrims();
    BareEchoReply();
    assert Interpret("echo ") == Show("$ " + "echo", "Command not found: echo");
    assert "$ " + "echo" == "$ echo";
  }

  /** The trailing space of `echo ` is trimmed away. */
  lemma BareEchoTrims()
    ensures Trim("echo ") == "echo"
  {
    assert "echo" + [' '] == "echo ";
    TrimDropsTrailingSpace("echo", ' ');
  }

  /** A bare `echo` matches no keyword and no `echo ` prefix. */
  lemma BareEchoReply()
    ensures ReplyTo("echo") == Say("Command not found: echo")
  {
    assert ToLower("echo")[0] == 'e';
    assert !StartsWith("echo", "echo ");
    assert NotFoundPrefix + "echo" == "Command not found: echo";
  }

  /** The console after a sequence of Enter presses. */
  function Run(c: Console, commands: seq<string>): Console
    decreases |commands|
  {
    if |commands| == 0 then c
    else HandleCommand(Run(c, commands[..|commands| - 1]), commands[|commands| - 1])
  }

  /** The same run, replayed from the commands' outcomes. */
  function Play(c: Console, outcomes: seq<Outcome>): Console
    decreases |outcomes|
  {
    if |outcomes| == 0 then c
    else Apply(Play(c, outcomes[..|outcomes| - 1]), outcomes[|outcomes| - 1])
  }

  function Outcomes(commands: seq<string>): (os: seq<Outcome>)
    ensures |os| == |commands|
    ensures forall i :: 0 <= i < |os| ==> os[i] == Interpret(commands[i])
  {
    seq(|commands|, i requires 0 <= i < |commands| => Interpret(commands[i]))
  }

  /** A run depends on its commands only through their outcomes. */
  lemma {:induction false} RunPlaysOutcomes(c: Console, commands: seq<string>)
    ensures Run(c, commands) == Play(c, Outcomes(commands))
    decreases |commands|
  {
    if |commands| > 0 {
      var os := Outcomes(commands);
      RunPlaysOutcomes(c, commands[..|commands| - 1]);
      assert os[..|os| - 1] == Outcomes(commands[..|commands| - 1]);
    }
  }

  /** No outcome of the run is a `clear`. */
  predicate NoClear(os: seq<Outcome>)
    decreases |os|
  {
    |os| == 0 || (NoClear(os[..|os| - 1]) && !os[|os| - 1].Clear?)
  }

  /** The recursive reading of `NoClear` agrees with "no element is a `clear`". */
  lemma {:induction false} NoClearMeansNone(os: seq<Outcome>)
    ensures NoClear(os) <==> forall i :: 0 <= i < |os| ==> !os[i].Clear?
    decreases |os|
  {
    if |os| > 0 {
      var init := os[..|os| - 1];
      NoClearMeansNone(init);
      assert forall i :: 0 <= i < |init| ==> init[i] == os[i];
    }
  }

  /** The outcomes after the last `clear` (all of them when there is none). */
  function SinceLastClear(os: seq<Outcome>): (r: seq<Outcome>)
    ensures NoClear(r)
    ensures |r| <= |os| && r == os[|os| - |r|..]
    ensures NoClear(os) ==> r == os
    ensures |r| < |os| ==> os[|os| - |r| - 1].Clear?
    decreases |os|
  {
    if |os| == 0 then []
    else if os[|os| - 1].Clear? then []
    else
      var prev := SinceLastClear(os[..|os| - 1]);
      ExtendSuffix(os, prev);
      prev + [os[|os| - 1]]
  }

  /** A suffix of all outcomes but the last, extended by the last, is a
      suffix of all of them. */
  lemma ExtendSuffix(os: seq<Outcome>, prev: seq<Outcome>)
    requires |os| > 0 && |prev| <= |os| - 1
    requires prev == os[..|os| - 1][|os| - 1 - |prev|..]
    ensures prev + [os[|os| - 1]] == os[|os| - |prev| - 1..]
    ensures (prev + [os[|os| - 1]])[..|prev|] == prev
  {
    var init := os[..|os| - 1];
    assert os == init + [os[|os| - 1]];
  }

  /** The scrollback entries of a clear-free run, in order. */
  function Entries(os: seq<Outcome>): seq<string>
    requires NoClear(os)
    decreases |os|
  {
    if |os| == 0 then []
    else
      Entries(os[..|os| - 1]) + Entry(os[|os| - 1])
  }

  /** What the scrollback starts with: the starting scrollback when nothing
      was cleared, otherwise the welcome lines `clear` restored. */
  function ScreenStart(c: Console, os: seq<Outcome>): seq<string> {
    if NoClear(os) then c.history else Welcome
  }

  /** A command other than `clear` extends the outcomes since the last clear
      by its own entry. */
  lemma SinceLastClearStep(os: seq<Outcome>)
    requires |os| > 0 && !os[|os| - 1].Clear?
    ensures Entries(SinceLastClear(os)) == Entries(SinceLastClear(os[..|os| - 1])) + Entry(os[|os| - 1])
  {
    var prev := SinceLastClear(os[..|os| - 1]);
    var s := prev + [os[|os| - 1]];
    assert SinceLastClear(os) == s;
    assert s[..|s| - 1] == prev;
  }

  /** A command other than `clear` leaves the scrollback's start as it was. */
  lemma ScreenStartStep(c: Console, os: seq<Outcome>)
    requires |os| > 0 && !os[|os| - 1].Clear?
    ensures ScreenStart(c, os) == ScreenStart(c, os[..|os| - 1])
  {
    assert NoClear(os) <==> NoClear(os[..|os| - 1]);
  }

  /** The whole scrollback is determined by the outcomes since the last
      `clear`: the welcome screen (or the starting scrollback when nothing
      was cleared) followed by one entry per later command. */
  lemma {:induction false} PlayHistory(c: Console, os: seq<Outcome>)
    ensures Play(c, os).history == ScreenStart(c, os) + Entries(SinceLastClear(os))
    decreases |os|
  {
    if |os| > 0 {
      var init := os[..|os| - 1];
      var last := os[|os| - 1];
      PlayHistory(c, init);
      assert Play(c, os) == Apply(Play(c, init), last);
      if last.Clear? {
        assert SinceLastClear(os) == [];
        assert !NoClear(os);
      } else {
        SinceLastClearStep(os);
        ScreenStartStep(c, os);
        AppendAssoc(ScreenStart(c, init), Entries(SinceLastClear(init)), Entry(last));
      }
    }
  }

  /** The two cases of `PlayHistory`: without a `clear` the starting
      scrollback stays on top, after one the welcome lines do. */
  lemma PlayHistoryCases(c: Console, os: seq<Outcome>)
    ensures NoClear(os) ==> Play(c, os).history == c.history + Entries(SinceLastClear(os))
    ensures !NoClear(os) ==> Play(c, os).history == Welcome + Entries(SinceLastClear(os))
  {
    PlayHistory(c, os);
  }

  lemma AppendAssoc(a: seq<string>, b: seq<string>, c: seq<string>)
    ensures (a + b) + c == a + (b + c)
  {
  }

  /** A terminal that started fresh shows the welcome lines followed by the
      entries of every command since the last `clear`. */
  lemma FreshTerminalHistory(commands: seq<string>)
    ensures Run(Fresh, commands).history == Welcome + Entries(SinceLastClear(Outcomes(commands)))
  {
    RunPlaysOutcomes(Fresh, commands);
    PlayHistoryCases(Fresh, Outcomes(commands));
  }
}
