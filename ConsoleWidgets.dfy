/** The header-line widget: a line as wide as the console window, made of a hyphen
    character with an optional title centred in it, printed in given colours. */
module ConsoleWidgets {
  import opened DotNet

  datatype ConsoleColor =
    | Black | DarkBlue | DarkGreen | DarkCyan | DarkRed | DarkMagenta | DarkYellow | Gray
    | DarkGray | Blue | Green | Cyan | Red | Magenta | Yellow | White

  /** The output encodings the program switches the console to. */
  datatype Encoding = Default | Utf8 | Unicode | Latin1 | Ascii

  /** The character a header line is drawn with: an ASCII hyphen on an ASCII console,
      otherwise the horizontal bar U+2015. */
  function Hyphen(encoding: Encoding): (c: char)
    ensures c == '-' <==> encoding == Ascii
    ensures c != '-' ==> c == '―'
  {
    if encoding == Ascii then '-' else '―'
  }

  /** The characters of `new string(c, count)` for a count that is not negative. */
  function Repeat(c: char, count: nat): (s: string)
    ensures |s| == count
    ensures forall i :: 0 <= i < |s| ==> s[i] == c
  {
    if count == 0 then [] else [c] + Repeat(c, count - 1)
  }

  /** `new string(c, count)`, which throws for a negative count. */
  function NewString(c: char, count: int): (r: Result<string>)
    ensures r.Ok? <==> count >= 0
    ensures r.Err? ==> r.error == ArgumentOutOfRangeException
    ensures r.Ok? ==> |r.value| == count && forall i :: 0 <= i < |r.value| ==> r.value[i] == c
  {
    if count < 0 then Err(ArgumentOutOfRangeException) else Ok(Repeat(c, count))
  }

  /** The line PrintLine writes for a window `width` wide. Without text it is `width`
      hyphens. With text it is the text framed by one space on each side and centred
      in hyphens, the right run never shorter than the left and at most one longer,
      `width` characters in all; a window narrower than the framed text throws. */
  function HeaderLine(width: int32, encoding: Encoding, text: string): (r: Result<string>)
    ensures r.Ok? <==> (if text == [] then width >= 0 else width >= |text| + 2)
    ensures r.Err? ==> r.error == ArgumentOutOfRangeException
    ensures r.Ok? ==> |r.value| == width
    ensures r.Ok? && text == [] ==> r.value == Repeat(Hyphen(encoding), width)
    ensures r.Ok? && text != [] ==>
      var left := (width - |text| - 2) / 2;
      var right := width - |text| - 2 - left;
      left <= right <= left + 1
      && r.value == Repeat(Hyphen(encoding), left) + [' '] + text + [' '] + Repeat(Hyphen(encoding), right)
  {
    var hyphen := Hyphen(encoding);
    if text != [] then
      match NewString(hyphen, HalfTowardZero(width - |text| - 2))
      case Err(e) => Err(e)
      case Ok(lead) =>
        var line := lead + [' '] + text + [' '];
        match NewString(hyphen, width - |line|)
        case Err(e) => Err(e)
        case Ok(tail) => Ok(line + tail)
    else
      NewString(hyphen, width)
  }

  /** The console state PrintLine reads and changes. */
  class Console {
    var foregroundColor: ConsoleColor
    var backgroundColor: ConsoleColor
    var windowWidth: int32
    var outputEncoding: Encoding
    /** The lines written so far with Console.WriteLine. */
    var lines: seq<string>

    constructor (foregroundColor: ConsoleColor, backgroundColor: ConsoleColor,
                 windowWidth: int32, outputEncoding: Encoding)
      ensures this.foregroundColor == foregroundColor && this.backgroundColor == backgroundColor
      ensures this.windowWidth == windowWidth && this.outputEncoding == outputEncoding
      ensures lines == []
    {
      this.foregroundColor, this.backgroundColor := foregroundColor, backgroundColor;
      this.windowWidth, this.outputEncoding := windowWidth, outputEncoding;
      lines := [];
    }
  }

  /** PrintLine. Writes the header line in the given colours and then puts the console's
      own colours back. When building the line throws, the exception escapes after the
      colours were switched and before they are restored, and nothing is written. */
  method PrintLine(console: Console, text: string := "",
                   foreColor: ConsoleColor := White, backColor: ConsoleColor := Black)
    returns (outcome: Result<()>)
    modifies console
    ensures console.windowWidth == old(console.windowWidth)
    ensures console.outputEncoding == old(console.outputEncoding)
    ensures var line := HeaderLine(old(console.windowWidth), old(console.outputEncoding), text);
      line.Ok? ==> (outcome == Ok(())
        && console.lines == old(console.lines) + [line.value]
        && console.foregroundColor == old(console.foregroundColor)
        && console.backgroundColor == old(console.backgroundColor))
    ensures var line := HeaderLine(old(console.windowWidth), old(console.outputEncoding), text);
      line.Err? ==> (outcome == Err(line.error)
        && console.lines == old(console.lines)
        && console.foregroundColor == foreColor
        && console.backgroundColor == backColor)
  {
    var w := console.windowWidth;
    var f := console.foregroundColor;
    var b := console.backgroundColor;
    var encoding := console.outputEncoding;
    console.foregroundColor := foreColor;
    console.backgroundColor := backColor;
    var line := HeaderLine(w, encoding, text);
    if line.Err? {
      return Err(line.error);
    }
    console.lines := console.lines + [line.value];
    console.foregroundColor := f;
    console.backgroundColor := b;
    outcome := Ok(());
  }

  /** A window one column narrower than the framed text: C# division truncates, so the
      left run asks for (-1) / 2 = 0 hyphens and succeeds, and it is the right run, asking
      for -1, that throws. Two or more columns short, the left run already throws. */
  lemma ShortWindowThrowsWhere(c: char, width: int32, text: string)
    requires text != [] && width < |text| + 2
    ensures NewString(c, HalfTowardZero(width - |text| - 2)).Ok? <==> width == |text| + 1
    ensures width == |text| + 1 ==> NewString(c, width - (|text| + 2)).Err?
  {
  }

  /** With an 80-column window, "About" is centred between 36 and 37 hyphens. */
  lemma AboutHeader()
    ensures HeaderLine(80, Ascii, "About") == Ok(Repeat('-', 36) + " About " + Repeat('-', 37))
  {
    assert Repeat('-', 36) + [' '] + "About" + [' '] + Repeat('-', 37)
      == Repeat('-', 36) + " About " + Repeat('-', 37);
  }
}
