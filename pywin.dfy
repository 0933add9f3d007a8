/** pyWin.py: reading an interface document (already loaded from YAML)
    into an interface record, the widget record, and the application's
    window list. */
module PyWin {
  import opened PyBuiltins

  /** `_get_if_exist(dict, key, or_=None)`: `dict[key]`, or `or_` when the
      lookup raises KeyError. A key that is present wins even when its
      value is `None`. */
  function GetIfExist(d: map<string, Value>, key: string, orElse: Value := VNone): (r: Value)
    ensures key in d ==> r == d[key]
    ensures key !in d ==> r == orElse
  {
    if key in d then d[key] else orElse
  }

  /** Binding a key makes the lookup return it; binding another key does not
      change the lookup. */
  lemma GetIfExistAfterUpdate(d: map<string, Value>, key: string, other: string, v: Value, orElse: Value)
    ensures GetIfExist(d[key := v], key, orElse) == v
    ensures other != key ==> GetIfExist(d[other := v], key, orElse) == GetIfExist(d, key, orElse)
    ensures GetIfExist(d - {key}, key, orElse) == orElse
  {
  }

  // ---------------------------------------------------------------------
  // Widget kinds and the widget record

  /** `_Widget`: the widget's type as given and its optional position. */
  datatype Widget = Widget(kind: Value, pos: Value)

  /** `_Widget(type, **kwargs)`. The type is kept unchanged and `pos` is
      the `pos` keyword, or `None` without one; the comparison with
      `Widget.BUTTON` that follows does nothing, so the class constants
      `Widget.BUTTON`, `Widget.ENTRY` and `Widget.TEXT` play no part. */
  function NewWidget(kind: Value, kwargs: map<string, Value>): (w: Widget)
    ensures w.kind == kind
    ensures "pos" in kwargs ==> w.pos == kwargs["pos"]
    ensures "pos" !in kwargs ==> w.pos == VNone
  {
    Widget(kind, GetIfExist(kwargs, "pos"))
  }

  /** Only the `pos` keyword reaches the record: keywords that agree on
      `pos` build the same widget. */
  lemma NewWidgetReadsOnlyPos(kind: Value, k1: map<string, Value>, k2: map<string, Value>)
    requires "pos" in k1 <==> "pos" in k2
    requires "pos" in k1 ==> k1["pos"] == k2["pos"]
    ensures NewWidget(kind, k1) == NewWidget(kind, k2)
  {
  }

  // ---------------------------------------------------------------------
  // The widget loop

  /** The entries `for w in ...` visits when the iterable is `v`: the items
      of a list, the one-character strings of a str, the keys of a dict.
      Each key of a non-empty dict is a str, and subscripting a str with
      `"type"` raises TypeError, so for a non-empty dict the model reports
      that TypeError here; anything else is not iterable (TypeError). */
  function WidgetEntries(v: Value): (r: Result<seq<Value>>)
    ensures v.VList? ==> r == Success(v.items)
    ensures r.Success? <==> v.VList? || v.VStr? || v == VMap(map[])
    ensures r.Failure? ==> r.error == TypeError
    ensures v.VStr? ==>
              && r.Success? && |r.value| == |v.s|
              && forall i :: 0 <= i < |v.s| ==> r.value[i] == VStr([v.s[i]])
    ensures v == VMap(map[]) ==> r == Success([])
  {
    match v
    case VList(items) => Success(items)
    case VStr(s) => Success(seq(|s|, i requires 0 <= i < |s| => VStr([s[i]])))
    case VMap(m) => if m == map[] then Success([]) else Failure(TypeError)
    case _ => Failure(TypeError)
  }

  /** `w["type"]`: the entry's type, KeyError for a dict without one,
      TypeError for anything that is not a dict. */
  function EntryType(w: Value): (r: Result<Value>)
    ensures r.Success? <==> w.VMap? && "type" in w.entries
    ensures r.Success? ==> r.value == w.entries["type"]
    ensures r == Failure(KeyError("type")) <==> w.VMap? && "type" !in w.entries
    ensures !w.VMap? ==> r == Failure(TypeError)
  {
    match w
    case VMap(m) => if "type" in m then Success(m["type"]) else Failure(KeyError("type"))
    case _ => Failure(TypeError)
  }

  /** How the loop over the widget entries ends: every entry's type, in
      order, or the position of the first entry whose `w["type"]` raises,
      with what it raises. */
  datatype LoopEnd = Completed(types: seq<Value>) | Raised(index: nat, error: PyError)

  /** The loop's meaning, independently of how its error is reported. */
  function ScanTypes(ws: seq<Value>): (e: LoopEnd)
    ensures e.Completed? ==> |e.types| == |ws|
    ensures e.Completed? ==> forall i :: 0 <= i < |ws| ==> EntryType(ws[i]) == Success(e.types[i])
    ensures e.Raised? ==> e.index < |ws| && EntryType(ws[e.index]) == Failure(e.error)
    ensures e.Raised? ==> forall i :: 0 <= i < e.index ==> EntryType(ws[i]).Success?
  {
    if ws == [] then Completed([])
    else
      match EntryType(ws[0])
      case Failure(err) => Raised(0, err)
      case Success(t) =>
        match ScanTypes(ws[1..])
        case Completed(ts) => Completed([t] + ts)
        case Raised(k, err) => Raised(k + 1, err)
  }

  /** The message of the InvalidWidgetError raised for widget `id`: the
      fixed text, then `str(id)`. */
  function WidgetMessage(id: int): (m: string)
    ensures |m| > |"Invalid widget with id "|
    ensures m[..|"Invalid widget with id "|] == "Invalid widget with id "
    ensures m[|"Invalid widget with id "|..] == IntToString(id)
  {
    "Invalid widget with id " + IntToString(id)
  }

  /** Two widget positions never share an error message. */
  lemma WidgetMessageInjective(a: int, b: int)
    requires WidgetMessage(a) == WidgetMessage(b)
    ensures a == b
  {
    var prefix := "Invalid widget with id ";
    assert IntToString(a) == WidgetMessage(a)[|prefix|..];
    assert IntToString(b) == WidgetMessage(b)[|prefix|..];
    IntToStringInjective(a, b);
  }

  /** The widget loop as written: the counter `i` starts at 0 and is never
      incremented, so every InvalidWidgetError names widget 0, whichever
      entry lacks its type. Errors other than KeyError propagate unchanged. */
  method CollectWidgetTypesAsWritten(ws: seq<Value>) returns (r: Result<seq<Value>>)
    ensures ScanTypes(ws).Completed? ==> r == Success(ScanTypes(ws).types)
    ensures ScanTypes(ws).Raised? && ScanTypes(ws).error.KeyError? ==>
              r == Failure(InvalidWidgetError(WidgetMessage(0)))
    ensures ScanTypes(ws).Raised? && !ScanTypes(ws).error.KeyError? ==>
              r == Failure(ScanTypes(ws).error)
  {
    var widgets: seq<Value> := [];
    var i := 0;
    for k := 0 to |ws|
      invariant |widgets| == k
      invariant forall j :: 0 <= j < k ==> EntryType(ws[j]) == Success(widgets[j])
    {
      match EntryType(ws[k]) {
        case Success(t) =>
          widgets := widgets + [t];
        case Failure(e) =>
          if e.KeyError? {
            return Failure(InvalidWidgetError(WidgetMessage(i)));
          }
          return Failure(e);
      }
    }
    ghost var e := ScanTypes(ws);
    if e.Completed? {
      assert forall j :: 0 <= j < |ws| ==> e.types[j] == widgets[j] by {
        forall j | 0 <= j < |ws| ensures e.types[j] == widgets[j] {
          assert EntryType(ws[j]) == Success(e.types[j]);
        }
      }
      assert e.types == widgets;
    }
    return Success(widgets);
  }

  /** The widget loop with its counter advanced once per entry: an entry
      without a type is reported by its 0-based position in the list. */
  method CollectWidgetTypes(ws: seq<Value>) returns (r: Result<seq<Value>>)
    ensures ScanTypes(ws).Completed? ==> r == Success(ScanTypes(ws).types)
    ensures ScanTypes(ws).Raised? && ScanTypes(ws).error.KeyError? ==>
              r == Failure(InvalidWidgetError(WidgetMessage(ScanTypes(ws).index)))
    ensures ScanTypes(ws).Raised? && !ScanTypes(ws).error.KeyError? ==>
              r == Failure(ScanTypes(ws).error)
  {
    var widgets: seq<Value> := [];
    var i := 0;
    for k := 0 to |ws|
      invariant i == k
      invariant |widgets| == k
      invariant forall j :: 0 <= j < k ==> EntryType(ws[j]) == Success(widgets[j])
    {
      match EntryType(ws[k]) {
        case Success(t) =>
          widgets := widgets + [t];
        case Failure(e) =>
          if e.KeyError? {
            return Failure(InvalidWidgetError(WidgetMessage(i)));
          }
          return Failure(e);
      }
      i := i + 1;
    }
    ghost var e := ScanTypes(ws);
    if e.Completed? {
      assert forall j :: 0 <= j < |ws| ==> e.types[j] == widgets[j] by {
        forall j | 0 <= j < |ws| ensures e.types[j] == widgets[j] {
          assert EntryType(ws[j]) == Success(e.types[j]);
        }
      }
      assert e.types == widgets;
    }
    return Success(widgets);
  }

  /** A list whose every entry is a dict with a `type` yields those types,
      in order, one per entry. */
  lemma ScanTypesAllTyped(ws: seq<Value>)
    requires forall i :: 0 <= i < |ws| ==> ws[i].VMap? && "type" in ws[i].entries
    ensures ScanTypes(ws).Completed?
    ensures ScanTypes(ws).types == seq(|ws|, i requires 0 <= i < |ws| => ws[i].entries["type"])
  {
    forall j | 0 <= j < |ws|
      ensures EntryType(ws[j]) == Success(ws[j].entries["type"])
    {
    }
    var e := ScanTypes(ws);
    assert forall j | 0 <= j < |ws| :: e.types[j] == ws[j].entries["type"];
  }

  /** The first entry without a type is the one the loop stops at. */
  lemma ScanTypesStopsAtFirstUntyped(ws: seq<Value>, k: nat)
    requires k < |ws| && ws[k].VMap? && "type" !in ws[k].entries
    requires forall i :: 0 <= i < k ==> ws[i].VMap? && "type" in ws[i].entries
    ensures ScanTypes(ws) == Raised(k, KeyError("type"))
  {
    assert EntryType(ws[k]) == Failure(KeyError("type"));
  }

  /** With two entries where only the second lacks a type, the loop as
      written names widget 0 although the offending widget is number 1. */
  lemma AsWrittenNamesWrongWidget()
    ensures var ws := [VMap(map["type" := VStr("button")]), VMap(map[])];
            ScanTypes(ws) == Raised(1, KeyError("type"))
            && WidgetMessage(0) != WidgetMessage(1)
  {
    var ws := [VMap(map["type" := VStr("button")]), VMap(map[])];
    ScanTypesStopsAtFirstUntyped(ws, 1);
    if WidgetMessage(0) == WidgetMessage(1) {
      WidgetMessageInjective(0, 1);
    }
  }

  // ---------------------------------------------------------------------
  // The interface record

  const DefaultTitle: string := "PyWinApp"
  const DefaultSize: string := "500, 300"

  /** `_Interface`: title, size and the types of its widgets, in order. */
  datatype Interface = Interface(title: Value, size: (int, int), widgets: seq<Value>)

  /** `_Interface.__init__` as written, on the loaded document. The size
      source is read from the `title` key and split on a single space, and
      the next line reads the name `size`, which nothing binds: a title
      that is not a str fails the `split` with AttributeError, and every
      other document fails with NameError before the widget loop runs. */
  method InitInterfaceAsWritten(data: map<string, Value>) returns (r: Result<Interface>)
    ensures r.Failure?
    ensures "title" in data && !data["title"].VStr? ==> r.error == AttributeError
    ensures !("title" in data && !data["title"].VStr?) ==> r.error == NameError("size")
  {
    var title := GetIfExist(data, "title", VStr(DefaultTitle));
    var sizeSource := GetIfExist(data, "title", VStr(DefaultSize));
    if !sizeSource.VStr? {
      return Failure(AttributeError);
    }
    var sizeTokens := Split(sizeSource.s, ' ');
    return Failure(NameError("size"));
  }

  /** Even with the name fixed, splitting the default size on a space leaves
      the comma on the first token, which `int` rejects. */
  lemma AsWrittenSizeTokensRejected()
    ensures Split(DefaultSize, ' ') == ["500,", "300"]
    ensures PyInt(Strip("500,")) == None
  {
    SplitAtSeparator("500,", "300", ' ');
    assert "500," + [' '] + "300" == DefaultSize;
    PyIntRejectsLastChar("500,");
  }

  /** The size line as intended: read `size`, split on a comma, strip each
      token and convert it with `int`. A size that is not a str has no
      `split` (AttributeError); a token `int` rejects raises ValueError;
      a single token raises IndexError, once the first has converted. */
  function ParseSize(v: Value): (r: Result<(int, int)>)
    ensures r.Success? <==>
              && v.VStr?
              && |Split(v.s, ',')| >= 2
              && PyInt(Strip(Split(v.s, ',')[0])).Some?
              && PyInt(Strip(Split(v.s, ',')[1])).Some?
    ensures !v.VStr? ==> r == Failure(AttributeError)
    ensures v.VStr? && PyInt(Strip(Split(v.s, ',')[0])).None? ==> r == Failure(ValueError)
    ensures v.VStr? && PyInt(Strip(Split(v.s, ',')[0])).Some? && |Split(v.s, ',')| < 2 ==>
              r == Failure(IndexError)
    ensures && v.VStr? && PyInt(Strip(Split(v.s, ',')[0])).Some? && |Split(v.s, ',')| >= 2
            && PyInt(Strip(Split(v.s, ',')[1])).None?
            ==> r == Failure(ValueError)
    ensures r.Success? ==>
              && Some(r.value.0) == PyInt(Strip(Split(v.s, ',')[0]))
              && Some(r.value.1) == PyInt(Strip(Split(v.s, ',')[1]))
  {
    if !v.VStr? then Failure(AttributeError)
    else
      var parts := Split(v.s, ',');
      match PyInt(Strip(parts[0]))
      case None => Failure(ValueError)
      case Some(w) =>
        if |parts| < 2 then Failure(IndexError)
        else
          match PyInt(Strip(parts[1]))
          case None => Failure(ValueError)
          case Some(h) => Success((w, h))
  }

  /** A text that splits into two pieces `int` accepts after stripping
      reads as the pair of their values. */
  lemma ParseSizeOfPieces(s: string, a: string, c: string, w: int, h: int)
    requires Split(s, ',') == [a, c]
    requires PyInt(Strip(a)) == Some(w) && PyInt(Strip(c)) == Some(h)
    ensures ParseSize(VStr(s)) == Success((w, h))
  {
  }

  /** `str` of an integer never contains a comma. */
  lemma NoCommaInIntToString(i: int)
    ensures ',' !in IntToString(i)
  {
    IntToStringCharacters(i);
  }

  /** Stripping a text that is one whitespace character followed by an
      unpadded text gives that text. */
  lemma StripAfterSpace(s: string, b: string)
    requires |s| >= 1 && IsSpace(s[0]) && s[1..] == b
    requires b == [] || (!IsSpace(b[0]) && !IsSpace(b[|b| - 1]))
    ensures Strip(s) == b
  {
    assert StripLeft(s) == StripLeft(b);
    StripUnpadded(b);
  }

  /** Two comma-free texts joined by ", " split on "," into the first text
      and the second after a space. */
  lemma SplitSizeText(a: string, b: string)
    requires ',' !in a && ',' !in b
    ensures Split(a + ", " + b, ',') == [a, " " + b]
  {
    SplitAtSeparator(a, " " + b, ',');
    assert a + [','] + (" " + b) == a + ", " + b;
  }

  /** Stripping a space followed by an unpadded text gives that text. */
  lemma StripSpaceBefore(b: string)
    requires b == [] || (!IsSpace(b[0]) && !IsSpace(b[|b| - 1]))
    ensures Strip(" " + b) == b
  {
    StripAfterSpace(" " + b, b);
  }

  /** A size written as `str(w) + ", " + str(h)` reads back as `(w, h)`. */
  lemma ParseSizeOfFormatted(w: int, h: int)
    ensures ParseSize(VStr(IntToString(w) + ", " + IntToString(h))) == Success((w, h))
  {
    var a, b := IntToString(w), IntToString(h);
    NoCommaInIntToString(w);
    NoCommaInIntToString(h);
    SplitSizeText(a, b);
    StripUnpadded(a);
    StripSpaceBefore(b);
    PyIntOfIntToString(w);
    PyIntOfIntToString(h);
    ParseSizeOfPieces(a + ", " + b, a, " " + b, w, h);
  }

  /** The default size reads as 500 by 300. */
  lemma DefaultSizeParses()
    ensures ParseSize(VStr(DefaultSize)) == Success((500, 300))
  {
    var formatted := IntToString(500) + ", " + IntToString(300);
    assert IntToString(500) == "500";
    assert IntToString(300) == "300";
    assert formatted == DefaultSize;
    ParseSizeOfFormatted(500, 300);
  }

  /** What `_Interface.__init__` builds, with the size line reading `size`
      as intended and the widget counter advanced: the title (default
      "PyWinApp"), then the size (default "500, 300"), then the widget
      types (default none), each step raising before the next runs. */
  function BuildInterface(data: map<string, Value>): (r: Result<Interface>)
    ensures r.Success? ==> r.value.title == (if "title" in data then data["title"] else VStr(DefaultTitle))
    ensures ParseSize(GetIfExist(data, "size", VStr(DefaultSize))).Failure? ==>
              r == Failure(ParseSize(GetIfExist(data, "size", VStr(DefaultSize))).error)
    ensures "widgets" !in data && ParseSize(GetIfExist(data, "size", VStr(DefaultSize))).Success? ==>
              r.Success? && r.value.widgets == []
    ensures r.Success? ==> Success(r.value.size) == ParseSize(GetIfExist(data, "size", VStr(DefaultSize)))
    ensures && ParseSize(GetIfExist(data, "size", VStr(DefaultSize))).Success?
            && WidgetEntries(GetIfExist(data, "widgets", VList([]))).Success?
            && ScanTypes(WidgetEntries(GetIfExist(data, "widgets", VList([]))).value).Completed?
            ==> r.Success?
    ensures r.Success? ==>
              && WidgetEntries(GetIfExist(data, "widgets", VList([]))).Success?
              && ScanTypes(WidgetEntries(GetIfExist(data, "widgets", VList([]))).value) == Completed(r.value.widgets)
    ensures ParseSize(GetIfExist(data, "size", VStr(DefaultSize))).Success? ==>
              WidgetEntries(GetIfExist(data, "widgets", VList([]))).Failure? ==>
              r == Failure(WidgetEntries(GetIfExist(data, "widgets", VList([]))).error)
    ensures ParseSize(GetIfExist(data, "size", VStr(DefaultSize))).Success? ==>
              WidgetEntries(GetIfExist(data, "widgets", VList([]))).Success? ==>
              ScanTypes(WidgetEntries(GetIfExist(data, "widgets", VList([]))).value).Raised? ==>
              var e := ScanTypes(WidgetEntries(GetIfExist(data, "widgets", VList([]))).value);
              r == Failure(if e.error.KeyError? then InvalidWidgetError(WidgetMessage(e.index)) else e.error)
  {
    var title := GetIfExist(data, "title", VStr(DefaultTitle));
    match ParseSize(GetIfExist(data, "size", VStr(DefaultSize)))
    case Failure(e) => Failure(e)
    case Success(size) =>
      match WidgetEntries(GetIfExist(data, "widgets", VList([])))
      case Failure(e) => Failure(e)
      case Success(ws) =>
        match ScanTypes(ws)
        case Completed(types) => Success(Interface(title, size, types))
        case Raised(k, e) =>
          Failure(if e.KeyError? then InvalidWidgetError(WidgetMessage(k)) else e)
  }

  /** Without `size` the interface is 500 by 300; with neither `size` nor
      `widgets` it is built, with no widgets, under its title or "PyWinApp". */
  lemma BuildInterfaceDefaults(data: map<string, Value>)
    requires "size" !in data
    ensures BuildInterface(data).Success? ==> BuildInterface(data).value.size == (500, 300)
    ensures "widgets" !in data ==>
              BuildInterface(data) == Success(Interface(GetIfExist(data, "title", VStr(DefaultTitle)), (500, 300), []))
  {
    assert GetIfExist(data, "size", VStr(DefaultSize)) == VStr(DefaultSize);
    DefaultSizeParses();
  }

  /** `_Interface.__init__` with the two defects of its size line and its
      widget counter corrected; it assigns the fields and runs the loop. */
  method InitInterface(data: map<string, Value>) returns (r: Result<Interface>)
    ensures r == BuildInterface(data)
  {
    var title := GetIfExist(data, "title", VStr(DefaultTitle));
    var size :- ParseSize(GetIfExist(data, "size", VStr(DefaultSize)));
    var entries :- WidgetEntries(GetIfExist(data, "widgets", VList([])));
    var widgets :- CollectWidgetTypes(entries);
    return Success(Interface(title, size, widgets));
  }

  /** A document whose every widget has a type yields one type per widget,
      in order. */
  lemma BuildInterfaceKeepsWidgetTypes(data: map<string, Value>, ws: seq<Value>)
    requires "widgets" in data && data["widgets"] == VList(ws)
    requires forall i :: 0 <= i < |ws| ==> ws[i].VMap? && "type" in ws[i].entries
    ensures ParseSize(GetIfExist(data, "size", VStr(DefaultSize))).Success? ==>
              && BuildInterface(data).Success?
              && BuildInterface(data).value.widgets == seq(|ws|, i requires 0 <= i < |ws| => ws[i].entries["type"])
  {
    ScanTypesAllTyped(ws);
  }

  // ---------------------------------------------------------------------
  // The application

  /** A window `open` created. The source's `_Window` keeps only its
      `Tk()` root and the app's script, not its interface; the model records
      the interface it was opened with, so that what `open` did can be
      stated. */
  datatype Window = Window(interface: Interface)

  /** The file `get_interface` reads for interface `name`. */
  function InterfacePath(name: string): (p: string)
    ensures |p| == |name| + 15
    ensures p[..10] == "interface/" && p[|p| - 5..] == ".yaml"
    ensures p[10..|p| - 5] == name
  {
    "interface/" + name + ".yaml"
  }

  /** Different interface names read different files. */
  lemma InterfacePathInjective(a: string, b: string)
    requires InterfacePath(a) == InterfacePath(b)
    ensures a == b
  {
  }

  /** `App`: the windows it has opened, in order. */
  class App {
    var windows: seq<Window>

    /** `App()` starts with no windows. */
    constructor ()
      ensures windows == []
    {
      windows := [];
    }

    /** `get_interface(name)`: the interface read from
        "interface/<name>.yaml". `files` stands for the file system with
        each file already loaded by the YAML parser; a missing file raises
        FileNotFoundError. */
    method GetInterface(name: string, files: map<string, map<string, Value>>) returns (r: Result<Interface>)
      ensures InterfacePath(name) !in files ==> r == Failure(FileNotFoundError(InterfacePath(name)))
      ensures InterfacePath(name) in files ==> r == BuildInterface(files[InterfacePath(name)])
    {
      var path := InterfacePath(name);
      if path !in files {
        return Failure(FileNotFoundError(path));
      }
      r := InitInterface(files[path]);
    }

    /** `open(interface)`: appends one new window, opened with `interface`,
        after the windows already open, which stay as they were. */
    method Open(interface: Interface)
      modifies this
      ensures windows == old(windows) + [Window(interface)]
    {
      windows := windows + [Window(interface)];
    }
  }
}
