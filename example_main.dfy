/** example/main.py: the `command_valid` handler of the example
    application, which reads the text of the `command` entry and reacts in
    the `result` label. The window is abstracted to the state the handler
    touches. */
module ExampleMain {
  import opened PyBuiltins

  /** The most recent language switch the handler asked the window for:
      none yet, `set_lang()` with no argument, or
      `set_lang(get_lang(code))` with `code` possibly `None`. */
  datatype LangRequest = NoLangRequest | DefaultLang | LangFor(code: Option<string>)

  /** The one thing a command makes the handler do. */
  datatype Outcome =
    | ClearResult
    | Close
    | ShowTest
    | SwitchToDefaultLang
    | SwitchLang(code: Option<string>)
    | NotFound

  /** The branch of the if/elif chain a command selects. "lang" alone is
      not a "lang " command, and the text after "lang " is passed on, or
      `None` when it is empty. */
  function Interpret(command: string): (o: Outcome)
    ensures o == ClearResult <==> command == ""
    ensures o == Close <==> command == "exit"
    ensures o == ShowTest <==> command == "test"
    ensures o == SwitchToDefaultLang <==> command == "lang"
    ensures o.SwitchLang? <==> "lang " <= command
    ensures o.SwitchLang? ==> o.code == (if |command| == 5 then None else Some(command[5..]))
    ensures o == NotFound <==> command !in {"", "exit", "test", "lang"} && !("lang " <= command)
  {
    if command == "" then ClearResult
    else if command == "exit" then Close
    else if command == "test" then ShowTest
    else if command == "lang" then SwitchToDefaultLang
    else if "lang " <= command then SwitchLang(if command[5..] == "" then None else Some(command[5..]))
    else NotFound
  }

  /** What the handler can see and change: the text of the `command` entry,
      the text and colours of the `result` label, whether the window is
      closed, and the last language switch requested. */
  datatype WindowState = WindowState(
    command: string,
    result: string,
    resultBg: string,
    resultFg: string,
    closed: bool,
    lang: LangRequest)

  /** The state after one call of the handler on state `s`. */
  function AfterCommand(s: WindowState): (t: WindowState)
    ensures t.command == ""
    ensures s.command !in {"exit", "test", "lang"} && !("lang " <= s.command) ==>
              t.result == (if s.command == "" then "" else "Command not found")
    ensures t.closed == (s.closed || s.command == "exit")
    ensures t.lang != s.lang ==> s.command == "lang" || "lang " <= s.command
    ensures s.command == "" ==>
              t == s.(command := "", result := "", resultBg := "SystemButtonFace", resultFg := "black")
    ensures s.command == "exit" ==> t.result == s.result && t.lang == s.lang
    ensures s.command == "test" ==> t.result == "Test" && t.lang == s.lang && t.closed == s.closed
    ensures s.command == "lang" ==> t.lang == DefaultLang && t.result == s.result
    ensures "lang " <= s.command ==>
              t.lang == LangFor(if |s.command| == 5 then None else Some(s.command[5..]))
              && t.result == s.result
    ensures (t.resultBg, t.resultFg) ==
              if Interpret(s.command) == NotFound then ("red", "white") else ("SystemButtonFace", "black")
  {
    var reset := s.(command := "", resultBg := "SystemButtonFace", resultFg := "black");
    match Interpret(s.command)
    case ClearResult => reset.(result := "")
    case Close => reset.(closed := true)
    case ShowTest => reset.(result := "Test")
    case SwitchToDefaultLang => reset.(lang := DefaultLang)
    case SwitchLang(code) => reset.(lang := LangFor(code))
    case NotFound => reset.(resultBg := "red", resultFg := "white", result := "Command not found")
  }

  /** The example's window, as far as `command_valid` uses it. */
  class MainWindow {
    var command: string
    var result: string
    var resultBg: string
    var resultFg: string
    var closed: bool
    var lang: LangRequest

    function State(): WindowState
      reads this
    {
      WindowState(command, result, resultBg, resultFg, closed, lang)
    }

    /** `command_valid`: the command is read first, the label's colours are
        reset and the entry cleared, then exactly one branch runs. */
    method CommandValid()
      modifies this
      ensures State() == AfterCommand(old(State()))
    {
      var text := command;
      resultBg := "SystemButtonFace";
      resultFg := "black";
      command := "";
      if text != "" {
        if text == "exit" {
          closed := true;
        } else if text == "test" {
          result := "Test";
        } else if text == "lang" {
          lang := DefaultLang;
        } else if "lang " <= text {
          lang := LangFor(if text[5..] == "" then None else Some(text[5..]));
        } else {
          resultBg := "red";
          resultFg := "white";
          result := "Command not found";
        }
      } else {
        result := "";
      }
    }
  }
}
