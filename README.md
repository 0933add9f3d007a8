# py-win, modelled in Dafny

py-win is a small Python library for building desktop windows from YAML
interface documents. `pyWin.py` reads a document into an interface record
(title, size, the types of its widgets), keeps a widget record (type and
position), and keeps an application object with the list of its open
windows. `example/main.py` is an example application whose `command_valid`
handler reads a command typed into an entry and reacts in a result label.

The model has three modules:

- `PyBuiltins` (`pybuiltins.dfy`): the values a YAML document loads into,
  the Python exceptions the core raises, and the `str` operations the core
  uses (`split`, `strip`, `int(...)`, `str(...)`), with their round trips.
- `PyWin` (`pywin.dfy`): `_get_if_exist`, `_Widget`, `_Interface` (as
  written and corrected), the widget loop (as written and corrected), and
  `App` as a class whose `windows` field `Open` extends.
- `ExampleMain` (`example_main.dfy`): `command_valid` as a method on a
  `MainWindow` class that holds the state the handler touches. The method
  is proved against the function `AfterCommand`.

The loaded document is a `map<string, Value>`. The file system, together
with the YAML parser, is the parameter `files` of `App.GetInterface`: a map
from path to loaded document.

The defaults are pyWin.py's own: title "PyWinApp", size "500, 300". The
only widget validation is the presence of `type`.

## Model

| member | source | states |
|---|---|---|
| `PyWin.GetIfExist` | pyWin.py:6-8 | The value under the key when the key is present, even if that value is `None`. The default otherwise, and `None` when no default is given. |
| `PyWin.GetIfExistAfterUpdate` | pyWin.py:6-8 | Binding a key makes the lookup return the bound value. Binding another key leaves the lookup unchanged. Removing the key makes it return the default. |
| `PyWin.NewWidget` | pyWin.py:20-25 | The widget keeps its type unchanged. Its position is the `pos` keyword, or `None` without one. |
| `PyWin.NewWidgetReadsOnlyPos` | pyWin.py:21-23 | Keyword sets that agree on `pos` build the same widget, so no other keyword is stored. |
| `PyWin.WidgetEntries` | pyWin.py:35 | Iteration succeeds exactly for a list, a str or an empty dict; anything else raises TypeError. A list yields its items, a str its one-character strs in order, an empty dict nothing. |
| `PyWin.EntryType` | pyWin.py:37-38 | `w["type"]` succeeds exactly for a dict with a `type` key and gives its value. It raises KeyError exactly for a dict without one, and TypeError for any entry that is not a dict, which the `except KeyError` does not catch. |
| `PyWin.ScanTypes` | pyWin.py:33-39 | If the loop completes, it yields one type per entry, in input order. Otherwise it stops at an entry whose lookup raises, and every earlier entry has a type. |
| `PyWin.ScanTypesAllTyped` | pyWin.py:33-37 | When every entry is a dict with a type, the result is exactly those types, in order, with the input's length. |
| `PyWin.ScanTypesStopsAtFirstUntyped` | pyWin.py:34-39 | The loop stops at the first entry that lacks a type, and nowhere else. |
| `PyWin.CollectWidgetTypesAsWritten` | pyWin.py:33-39 | The loop as written: it returns every type when all entries have one. A missing type raises InvalidWidgetError naming id 0, whichever entry it is. Other errors propagate unchanged. |
| `PyWin.AsWrittenNamesWrongWidget` | pyWin.py:34-39 | With a typed entry followed by an untyped one, the loop stops at entry 1, while the message for id 0 differs from the message for id 1. |
| `PyWin.WidgetMessage` | pyWin.py:39 | The message is the fixed text "Invalid widget with id " followed by `str` of the id. |
| `PyWin.WidgetMessageInjective` | pyWin.py:39 | Different widget ids never give the same InvalidWidgetError message. |
| `PyWin.CollectWidgetTypes` | pyWin.py:33-39 | The loop with its counter advanced: a missing type raises InvalidWidgetError naming the 0-based position of the first untyped entry. |
| `PyWin.InitInterfaceAsWritten` | pyWin.py:28-32 | Construction as written always fails. A non-str title raises AttributeError at `split`; every other document raises NameError for `size` before the widget loop. |
| `PyWin.AsWrittenSizeTokensRejected` | pyWin.py:31-32 | Splitting the default "500, 300" on one space gives "500," and "300". `int` rejects "500,". |
| `PyWin.ParseSize` | pyWin.py:31-32 | A size that is not a str raises AttributeError, a first piece `int` rejects raises ValueError, a single piece raises IndexError, and a second piece `int` rejects raises ValueError. The intended size line succeeds exactly when the value is a str that splits on "," into at least two pieces, the first two of which `int` accepts after stripping; any further pieces are ignored. The result is those two integers. |
| `PyWin.ParseSizeOfPieces` | pyWin.py:31-32 | A text that splits on "," into two pieces that `int` accepts after stripping reads as the pair of their values. |
| `PyWin.ParseSizeOfFormatted` | pyWin.py:31-32 | Every size written as `str(w) + ", " + str(h)` parses back to `(w, h)`. |
| `PyWin.DefaultSizeParses` | pyWin.py:31 | The default size "500, 300" parses to (500, 300). |
| `PyWin.BuildInterface` | pyWin.py:28-39 | The title is `data["title"]` if present, else "PyWinApp". A size failure is the result. A built interface's size is the parsed `size` entry, and its widgets are exactly the types the loop collects from the `widgets` entries. Once the size parses, a non-iterable `widgets` gives its TypeError, and an entry whose `type` lookup raises fails the construction: KeyError becomes InvalidWidgetError naming that entry's position, any other error propagates. A document without `widgets` has no widget types. A document whose size parses and whose widget entries iterate and all have a type is always built. |
| `PyWin.BuildInterfaceDefaults` | pyWin.py:30-35 | Without `size` the size is (500, 300). With neither `size` nor `widgets`, the interface is built with no widgets. |
| `PyWin.BuildInterfaceKeepsWidgetTypes` | pyWin.py:33-37 | A document whose widgets all have a type, and whose size parses, builds an interface listing those types in order. |
| `PyWin.InitInterface` | pyWin.py:28-39 | The corrected constructor computes the title and size, runs the loop, and builds the record. Its result is exactly `BuildInterface`. |
| `PyWin.InterfacePath` | pyWin.py:50 | The path is "interface/", then the name, then ".yaml". The name can be read back from the path. |
| `PyWin.InterfacePathInjective` | pyWin.py:50 | Different interface names read different files. |
| `PyWin.App.constructor` | pyWin.py:47-48 | An application starts with no windows. |
| `PyWin.App.GetInterface` | pyWin.py:49-50 | A missing interface file raises FileNotFoundError for its path. Otherwise the result is the interface built from that file's document. |
| `PyWin.App.Open` | pyWin.py:51-52 | Exactly one new window is appended at the end, recorded with the interface it was opened with. Earlier windows are unchanged. |
| `PyBuiltins.Split` | pyWin.py:31 | `split` with a separator gives at least one piece, and no piece contains the separator. |
| `PyBuiltins.JoinSplit` | pyWin.py:31 | Joining the pieces of a split with the separator gives back the string. |
| `PyBuiltins.SplitAtSeparator` | pyWin.py:31 | A text with one separator splits into exactly the two texts around it. |
| `PyBuiltins.SplitJoin` | pyWin.py:31 | Splitting a join of separator-free pieces gives back the pieces. |
| `PyBuiltins.StripLeft` | pyWin.py:32 | The result is a suffix of the input. Everything removed is whitespace, and the result does not start with whitespace. |
| `PyBuiltins.StripRight` | pyWin.py:32 | The result is a prefix of the input. Everything removed is whitespace, and the result does not end with whitespace. |
| `PyBuiltins.Strip` | pyWin.py:32 | The result neither starts nor ends with whitespace. |
| `PyBuiltins.StripRemovesOnlyPadding` | pyWin.py:32 | `strip` returns the contiguous slice of its input that starts where `lstrip` stops, and everything it removes before and after that slice is whitespace. |
| `PyBuiltins.StripUnpadded` | pyWin.py:32 | A string without leading or trailing whitespace is unchanged by `strip`. |
| `PyBuiltins.StripIdempotent` | pyWin.py:32 | Stripping twice is stripping once. |
| `PyBuiltins.NatToString` | pyWin.py:39 | `str` of a natural number is a non-empty string of digits with no leading zero. |
| `PyBuiltins.NegativeToString` | pyWin.py:39 | `str` of a negative integer is a minus sign followed by `str` of its magnitude. |
| `PyBuiltins.IntToString` | pyWin.py:39 | `str` of an integer starts with a digit or a minus sign and ends in a digit. The sign appears exactly for negatives. |
| `PyBuiltins.IntToStringCharacters` | pyWin.py:39 | Every character `str` writes for an integer is a digit or a minus sign. |
| `PyBuiltins.DigitsValueOfNatToString` | pyWin.py:39 | Reading back the digits of `str(n)` gives `n`. |
| `PyBuiltins.PyIntOfIntToString` | pyWin.py:32 | `int(str(i)) == i` for every integer. |
| `PyBuiltins.PyInt` | pyWin.py:32 | `int` succeeds exactly when the stripped text is a non-empty run of ASCII digits, or a sign `-` or `+` followed by one. An unsigned run reads as its decimal value, a `-` run as its negation and a `+` run as its value. |
| `PyBuiltins.PyIntRejectsLastChar` | pyWin.py:32 | `int` rejects an unpadded text whose last character is not a digit. |
| `PyBuiltins.IntToStringInjective` | pyWin.py:39 | `str` never gives the same text for two different integers. |
| `ExampleMain.Interpret` | example/main.py:16-28 | Each branch is selected exactly by its own condition: the empty command, "exit", "test", "lang", the prefix "lang ", and otherwise not found. After "lang ", the text that follows is passed on, or `None` when it is empty. |
| `ExampleMain.AfterCommand` | example/main.py:12-30 | On every call the entry is cleared. The window closes only on "exit", and the language changes only on "lang" commands. An empty command only clears the result. "test" shows "Test". An unknown command shows "Command not found" in white on red. Otherwise the colours are reset to black on SystemButtonFace. |
| `ExampleMain.MainWindow.CommandValid` | example/main.py:11-30 | The handler reads the command before clearing the entry. Its new state is `AfterCommand` of the old state. |

## Findings

| source | as written | input that shows it | evidently intended | confidence | as-written member | corrected member |
|---|---|---|---|---|---|---|
| pyWin.py:32 | `size` is read but never bound, so every `_Interface` construction raises NameError (or AttributeError for a non-str title) | `{}`, the empty document | convert the tokens split on line 31 (`self.size`) | high; not executed | `PyWin.InitInterfaceAsWritten` | `PyWin.InitInterface` |
| pyWin.py:31 | the size text is read from `title` and split on one space, so the default gives the token "500,", which `int` rejects | `{}` with line 32 reading `self.size`: `int("500,")` raises ValueError | read `size`, split on ",", strip, convert | medium; not executed | `PyWin.AsWrittenSizeTokensRejected` | `PyWin.ParseSizeOfFormatted` |
| pyWin.py:34-39 | the counter `i` is never incremented, so InvalidWidgetError always names widget 0 | with lines 31-32 corrected, widgets `[{type: button}, {}]` report id 0 | report id 1, the position of the untyped entry | high; not executed | `PyWin.AsWrittenNamesWrongWidget` | `PyWin.CollectWidgetTypes` |


## Left out

- Reading and YAML-parsing the interface file (pyWin.py:10-13): file I/O and a foreign parser. A loaded document is a given map, and `App.GetInterface` takes the files as a map from path to document.
- `_Window` creating a `Tk()` root and storing the app's `script` (pyWin.py:41-44): native window construction belongs to the toolkit. The source's window keeps no reference to the interface it is given; the model's `Window` keeps that argument only to record what `open` was called with.
- `App.script` (pyWin.py:53-54): a no-op.
- `run` in example/main.py and minimal_code/main.py: these only chain `get_lang`, `get_interface`, `create_window`, `focus` and `open`. Several of those are not defined in pyWin.py, and `get_interface` is called with two arguments although it takes one.
- The window and widget methods the example calls (`get_value`, `set`, `set_value`, `clear`, `close`, `set_lang`, `get_lang`, `window[...]`): they do not exist in the code. They become updates of the abstract window state. `set_lang` is recorded as a request, not as a rebuild.
- YAML floats, dates and non-string mapping keys: they are not among `Value`'s cases. A document whose root is not a mapping is not modelled either.
- `PyWin.WidgetEntries`: iterating a non-empty dict yields its keys, and the model raises the TypeError of the first key's subscript directly, without modelling key order.
- `PyWin.BuildInterface`: uses the corrected size line (read `size`, split on ",") and the corrected widget counter. As written, the constructor never returns an interface; `PyWin.InitInterfaceAsWritten` models that.
- `PyWin.InitInterface`: the corrected constructor, for the same reason. The as-written constructor is `PyWin.InitInterfaceAsWritten`.
- `PyWin.App.GetInterface`: builds the interface with the corrected constructor. As written, `get_interface` raises NameError (or AttributeError) for every file it reads.
- `PyBuiltins.IntToString`: Python since 3.11 (and 3.10.7, 3.9.14, 3.8.14, 3.7.14) raises ValueError when `str` of an integer would exceed 4300 digits (`sys.get_int_max_str_digits`). The model has no such limit, so `PyBuiltins.PyIntOfIntToString` and `PyBuiltins.IntToStringInjective` hold here for every integer.
- `PyBuiltins.PyInt`: does not model the same 4300-digit limit on `int` of a str.
- `PyBuiltins.PyInt`: does not accept underscores between digits or non-ASCII digits, which Python's `int` accepts.
- `PyBuiltins.IsSpace`: only ASCII whitespace is stripped. Python's `strip` also removes non-ASCII whitespace.
- Localisation, position schemes, tags, widget ids, events and actions, and rebuilding on a language switch: none of these is implemented in the code.
