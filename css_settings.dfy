/** The stylesheet variables the desktop window reads and writes:
    `extract_color_from_css` (a line scan) and the text edit inside
    `update_css_color` and `toggle_card`. Reading and writing the file,
    the colour chooser and the message box are not modelled: the
    stylesheet is a string and its lines a sequence. */
module CssSettings {
  import opened Wrappers
  import opened PyStr

  // ---------------------------------------------------------------------
  // extract_color_from_css

  /** A line `extract_color_from_css` takes as the declaration of
      `varName`: it mentions the name and holds a colon. */
  predicate Declares(line: string, varName: string) {
    Contains(line, varName) && ':' in line
  }

  /** The index of the first line declaring `varName`. */
  function FirstDeclaration(lines: seq<string>, varName: string): (r: Option<nat>)
    ensures r.Some? ==>
      && r.value < |lines| && Declares(lines[r.value], varName)
      && forall j | 0 <= j < r.value :: !Declares(lines[j], varName)
    ensures r.None? ==> forall j | 0 <= j < |lines| :: !Declares(lines[j], varName)
    decreases |lines|
  {
    if |lines| == 0 then None
    else if Declares(lines[0], varName) then Some(0)
    else match FirstDeclaration(lines[1..], varName)
      case None => None
      case Some(k) => Some(k + 1)
  }

  /** `line.split(':')[1].split(';')[0].strip()`: the text after the first
      colon, up to the next colon or semicolon, without surrounding
      whitespace. */
  function DeclaredValue(line: string): string
    requires ':' in line
  {
    var parts := Split(line, ':');
    SplitHasTwo(line, ':');
    Strip(Split(parts[1], ';')[0])
  }

  lemma {:induction false} SplitHasTwo(s: string, c: char)
    requires c in s
    ensures |Split(s, c)| >= 2
    decreases |s|
  {
    if s[0] != c {
      SplitHasTwo(s[1..], c);
    }
  }

  datatype Rgb = Rgb(r: int, g: int, b: int)

  /** `color.replace('rgba(', '').replace(')', '').split(',')` */
  function RgbaParts(color: string): seq<string> {
    Split(RemoveAll(RemoveAll(color, "rgba("), ")"), ',')
  }

  /** `[int(x.strip()) for x in parts[:3]]`; `None` where `int` raises. */
  function ParseRgb(parts: seq<string>): Option<Rgb>
    requires |parts| >= 3
  {
    match (ParseInt(Strip(parts[0])), ParseInt(Strip(parts[1])), ParseInt(Strip(parts[2])))
    case (Some(r), Some(g), Some(b)) => Some(Rgb(r, g, b))
    case _ => None
  }

  /** `f'#{r:02x}{g:02x}{b:02x}'` */
  function HexColor(c: Rgb): string {
    "#" + Hex02(c.r) + Hex02(c.g) + Hex02(c.b)
  }

  /** What `extract_color_from_css` returns for a declared value: an
      `rgba` value with three integer components becomes `#rrggbb`, one
      whose components do not parse gives `None`, and any other value
      (including `rgba` with fewer than three parts) is returned as it is. */
  function ColorOf(color: string): Option<string> {
    if !Contains(color, "rgba") then Some(color)
    else
      var parts := RgbaParts(color);
      if |parts| < 3 then Some(color)
      else match ParseRgb(parts)
        case None => None
        case Some(c) => Some(HexColor(c))
  }

  /** The result of `extract_color_from_css(lines, varName)`. */
  function Extracted(lines: seq<string>, varName: string): Option<string> {
    match FirstDeclaration(lines, varName)
    case None => None
    case Some(i) => ColorOf(DeclaredValue(lines[i]))
  }

  /** `extract_color_from_css`: scans the lines and returns at the first
      declaration of `varName`; `None` when there is none. */
  method ExtractColor(cssLines: seq<string>, varName: string) returns (r: Option<string>)
    ensures r == Extracted(cssLines, varName)
  {
    for i := 0 to |cssLines|
      invariant forall j | 0 <= j < i :: !Declares(cssLines[j], varName)
    {
      var line := cssLines[i];
      if Contains(line, varName) && ':' in line {
        var parts := Split(line, ':');
        SplitHasTwo(line, ':');
        if |parts| >= 2 {
          var color := Strip(Split(parts[1], ';')[0]);
          if Contains(color, "rgba") {
            var rgbaParts := Split(RemoveAll(RemoveAll(color, "rgba("), ")"), ',');
            if |rgbaParts| >= 3 {
              var red := ParseInt(Strip(rgbaParts[0]));
              var green := ParseInt(Strip(rgbaParts[1]));
              var blue := ParseInt(Strip(rgbaParts[2]));
              if red.None? || green.None? || blue.None? {
                return None;  // int() raised
              }
              return Some(HexColor(Rgb(red.value, green.value, blue.value)));
            }
          }
          FirstIs(cssLines, varName, i);
          return Some(color);
        }
      }
    }
    return None;
  }

  /** A declaration preceded by none is the first one. */
  lemma FirstIs(lines: seq<string>, varName: string, i: nat)
    requires i < |lines| && Declares(lines[i], varName)
    requires forall j | 0 <= j < i :: !Declares(lines[j], varName)
    ensures FirstDeclaration(lines, varName) == Some(i)
  {
  }

  // ---------------------------------------------------------------------
  // Properties of the colour decoding

  /** A colour whose components are bytes is written `#rrggbb` in
      lower-case hex, and each pair reads back as its component. */
  lemma HexColorOfBytes(c: Rgb)
    requires 0 <= c.r < 256 && 0 <= c.g < 256 && 0 <= c.b < 256
    ensures var h := HexColor(c);
      && |h| == 7 && h[0] == '#' && AllHex(h[1..])
      && HexValue(h[1..3]) == c.r && HexValue(h[3..5]) == c.g && HexValue(h[5..7]) == c.b
  {
    Hex02Byte(c.r);
    Hex02Byte(c.g);
    Hex02Byte(c.b);
    var h := HexColor(c);
    assert h[1..3] == Hex02(c.r);
    assert h[3..5] == Hex02(c.g);
    assert h[5..7] == Hex02(c.b);
  }

  lemma {:induction false} RemoveAllAbsent(s: string, pat: string)
    requires |pat| > 0 && pat[0] !in s
    ensures RemoveAll(s, pat) == s
    decreases |s|
  {
    if |s| >= |pat| {
      assert s[0] != pat[0];
      assert s[..|pat|] != pat;
      RemoveAllAbsent(s[1..], pat);
      assert [s[0]] + s[1..] == s;
    }
  }

  lemma {:induction false} RemoveClosing(a: string)
    requires ')' !in a
    ensures RemoveAll(a + ")", ")") == a
    decreases |a|
  {
    var s := a + ")";
    if |a| == 0 {
      assert s[..1] == ")";
      assert s[1..] == "";
    } else {
      assert s[0] == a[0] && s[..1] != ")";
      assert s[1..] == a[1..] + ")";
      RemoveClosing(a[1..]);
      assert [a[0]] + a[1..] == a;
    }
  }

  predicate Numeral(s: string) {
    |s| >= 1 && AllDigits(s)
  }

  /** The two `replace` calls take off the `rgba(` prefix and the
      closing parenthesis. */
  lemma UnwrapRgba(body: string)
    requires 'r' !in body && ')' !in body
    ensures RemoveAll(RemoveAll("rgba(" + body + ")", "rgba("), ")") == body
  {
    var s := "rgba(" + body + ")";
    assert s[..5] == "rgba(" && s[5..] == body + ")";
    assert 'r' !in body + ")";
    RemoveAllAbsent(body + ")", "rgba(");
    RemoveClosing(body);
  }

  /** Splitting `a, b` at the comma. */
  lemma SplitTwo(a: string, b: string)
    requires ',' !in a && ',' !in b
    ensures Split(a + ", " + b, ',') == [a, " " + b]
  {
    assert a + ", " + b == a + [','] + (" " + b);
    SplitFirst(a, ',', " " + b);
    SplitWithout(" " + b, ',');
  }

  /** Splitting `a, b, c` at the commas. */
  lemma SplitCommas(a: string, b: string, c: string)
    requires ',' !in a && ',' !in b && ',' !in c
    ensures Split(a + ", " + b + ", " + c, ',') == [a, " " + b, " " + c]
  {
    assert a + ", " + b + ", " + c == a + [','] + (" " + b + ", " + c);
    SplitFirst(a, ',', " " + b + ", " + c);
    SplitTwo(" " + b, c);
  }

  /** A numeral holds none of the characters the decoder cuts at. */
  lemma NumeralFree(a: string)
    requires Numeral(a)
    ensures 'r' !in a && ')' !in a && ',' !in a
  {
    assert forall i | 0 <= i < |a| :: IsDigit(a[i]);
  }

  /** Splitting `rgba(a, b, c)` at the commas, for components free of
      the characters the decoder cuts at. */
  lemma RgbaThreeParts(a: string, b: string, c: string)
    requires 'r' !in a && ')' !in a && ',' !in a
    requires 'r' !in b && ')' !in b && ',' !in b
    requires 'r' !in c && ')' !in c && ',' !in c
    ensures RgbaParts("rgba(" + a + ", " + b + ", " + c + ")") == [a, " " + b, " " + c]
  {
    var body := a + ", " + b + ", " + c;
    assert 'r' !in body && ')' !in body;
    assert "rgba(" + a + ", " + b + ", " + c + ")" == "rgba(" + body + ")";
    UnwrapRgba(body);
    SplitCommas(a, b, c);
  }

  /** Splitting `rgba(a, b, c)` at the commas. */
  lemma SplitThree(a: string, b: string, c: string)
    requires Numeral(a) && Numeral(b) && Numeral(c)
    ensures RgbaParts("rgba(" + a + ", " + b + ", " + c + ")") == [a, " " + b, " " + c]
  {
    NumeralFree(a);
    NumeralFree(b);
    NumeralFree(c);
    RgbaThreeParts(a, b, c);
  }

  /** An `rgba` value with three integer components is written in hex. */
  lemma ColorOfRgb(color: string, c: Rgb)
    requires Contains(color, "rgba") && |RgbaParts(color)| >= 3
    requires ParseRgb(RgbaParts(color)) == Some(c)
    ensures ColorOf(color) == Some(HexColor(c))
  {
  }

  /** A decimal numeral behind whitespace parses as the number it denotes. */
  lemma ParsePadded(pad: string, n: nat)
    requires forall i | 0 <= i < |pad| :: IsSpace(pad[i])
    ensures ParseInt(Strip(pad + NatToDec(n))) == Some(n)
  {
    var d := NatToDec(n);
    assert !IsSpace(d[0]) && !IsSpace(d[|d| - 1]);
    StripPadded(pad, d);
    ParseIntDec(n);
  }

  /** Three decimal numerals, the last two behind a space, parse as the
      numbers they denote. */
  lemma ParseDecimals(r: nat, g: nat, b: nat)
    ensures ParseRgb([NatToDec(r), " " + NatToDec(g), " " + NatToDec(b)]) == Some(Rgb(r, g, b))
  {
    ParsePadded("", r);
    assert "" + NatToDec(r) == NatToDec(r);
    ParsePadded(" ", g);
    ParsePadded(" ", b);
  }

  /** An `rgba` value with three parts of which one is not an integer
      gives `None`, where `int()` raises. */
  lemma ColorOfBadRgb(color: string)
    requires Contains(color, "rgba") && |RgbaParts(color)| >= 3
    requires ParseRgb(RgbaParts(color)).None?
    ensures ColorOf(color) == None
  {
  }

  /** A third component that is not an integer fails the whole decode. */
  lemma BadThirdComponent(parts: seq<string>)
    requires |parts| >= 3 && ParseInt(Strip(parts[2])).None?
    ensures ParseRgb(parts).None?
  {
  }

  /** The `rgba(r, g, b)` notation of the default stylesheet decodes to
      the `#rrggbb` colour of its three components. */
  lemma RgbaDecodes(r: nat, g: nat, b: nat)
    requires r < 256 && g < 256 && b < 256
    ensures ColorOf("rgba(" + NatToDec(r) + ", " + NatToDec(g) + ", " + NatToDec(b) + ")")
         == Some(HexColor(Rgb(r, g, b)))
  {
    var s := "rgba(" + NatToDec(r) + ", " + NatToDec(g) + ", " + NatToDec(b) + ")";
    assert s == "" + "rgba" + s[4..];
    ContainsInfix("", "rgba", s[4..]);
    SplitThree(NatToDec(r), NatToDec(g), NatToDec(b));
    ParseDecimals(r, g, b);
    ColorOfRgb(s, Rgb(r, g, b));
  }

  /** A value that does not mention `rgba` is returned as it is. */
  lemma NoRgbaKept(color: string)
    requires !Contains(color, "rgba")
    ensures ColorOf(color) == Some(color)
  {
  }

  /** A hex colour, which does not mention `rgba`, is returned as it is. */
  lemma HexValueKept()
    ensures ColorOf("#00ff00") == Some("#00ff00")
  {
    NotContainsFirst("#00ff00", "rgba");
  }

  /** `--progress-start: rgba(94, 255, 155);` of the default stylesheet
      reads as `#5eff9b`. */
  lemma DefaultProgressStart()
    ensures ColorOf("rgba(94, 255, 155)") == Some("#5eff9b")
  {
    assert NatToDec(9) == "9" && NatToDec(94) == "94";
    assert NatToDec(2) == "2" && NatToDec(25) == "25" && NatToDec(255) == "255";
    assert NatToDec(1) == "1" && NatToDec(15) == "15" && NatToDec(155) == "155";
    assert "rgba(" + "94" + ", " + "255" + ", " + "155" + ")" == "rgba(94, 255, 155)";
    RgbaDecodes(94, 255, 155);
    ProgressStartHex();
  }

  lemma ProgressStartHex()
    ensures HexColor(Rgb(94, 255, 155)) == "#5eff9b"
  {
    assert HexChar(5) == '5' && HexChar(14) == 'e';
    assert NatToHex(5) == "5";
    assert NatToHex(94) == "5e";
    assert HexChar(15) == 'f' && HexChar(9) == '9' && HexChar(11) == 'b';
    assert NatToHex(15) == "f" && NatToHex(255) == "ff";
    assert NatToHex(9) == "9" && NatToHex(155) == "9b";
    assert Hex02(94) == "5e" && Hex02(255) == "ff" && Hex02(155) == "9b";
  }

  /** An `rgba` value with fewer than three parts is returned as it is. */
  lemma ShortRgbaKept()
    ensures ColorOf("rgba(1, 2)") == Some("rgba(1, 2)")
  {
    var short := "rgba(1, 2)";
    assert short == "" + "rgba" + "(1, 2)";
    ContainsInfix("", "rgba", "(1, 2)");
    assert short == "rgba(" + "1, 2" + ")";
    UnwrapRgba("1, 2");
    assert "1, 2" == "1" + ", " + "2";
    SplitTwo("1", "2");
    ColorOfShort(short);
  }

  /** A component that is not an integer makes the value decode to
      `None`: `rgba(1, 2, x)`. */
  lemma NonIntegerRgbaIsNone()
    ensures ColorOf("rgba(1, 2, x)") == None
  {
    var bad := "rgba(1, 2, x)";
    assert bad == "" + "rgba" + "(1, 2, x)";
    ContainsInfix("", "rgba", "(1, 2, x)");
    assert bad == "rgba(" + "1" + ", " + "2" + ", " + "x" + ")";
    RgbaThreeParts("1", "2", "x");
    var parts := RgbaParts(bad);
    assert parts[2] == " " + "x";
    StripPadded(" ", "x");
    assert ParseInt("x") == None;
    BadThirdComponent(parts);
    ColorOfBadRgb(bad);
  }

  lemma ColorOfShort(color: string)
    requires Contains(color, "rgba") && |RgbaParts(color)| < 3
    ensures ColorOf(color) == Some(color)
  {
  }

  // ---------------------------------------------------------------------
  // update_css_color (the text edit) and toggle_card

  /** The line `update_css_color` writes: `    {var_name}: {color_value};` */
  function DeclarationLine(varName: string, value: string): string {
    "    " + varName + ": " + value + ";"
  }

  /** The index of the first line mentioning `varName` (the edit does not
      ask for a colon). */
  function FirstMention(lines: seq<string>, varName: string): (r: Option<nat>)
    ensures r.Some? ==>
      && r.value < |lines| && Contains(lines[r.value], varName)
      && forall j | 0 <= j < r.value :: !Contains(lines[j], varName)
    ensures r.None? ==> forall j | 0 <= j < |lines| :: !Contains(lines[j], varName)
    decreases |lines|
  {
    if |lines| == 0 then None
    else if Contains(lines[0], varName) then Some(0)
    else match FirstMention(lines[1..], varName)
      case None => None
      case Some(k) => Some(k + 1)
  }

  /** The lines after the edit. */
  function Replaced(lines: seq<string>, varName: string, value: string): seq<string> {
    match FirstMention(lines, varName)
    case None => lines
    case Some(k) => lines[k := DeclarationLine(varName, value)]
  }

  /** Only the first line mentioning `varName` is replaced, by the
      declaration line; every other line, and the number of lines, stay
      as they were; with no such line nothing changes. */
  lemma ReplacedLines(lines: seq<string>, varName: string, value: string, k: nat)
    requires k < |lines| && Contains(lines[k], varName)
    requires forall j | 0 <= j < k :: !Contains(lines[j], varName)
    ensures var r := Replaced(lines, varName, value);
      && |r| == |lines| && r[k] == DeclarationLine(varName, value)
      && forall j | 0 <= j < |lines| && j != k :: r[j] == lines[j]
  {
  }

  lemma NoMentionUnchanged(lines: seq<string>, varName: string, value: string)
    requires forall j | 0 <= j < |lines| :: !Contains(lines[j], varName)
    ensures Replaced(lines, varName, value) == lines
  {
  }

  /** The loop at main.py:566-569 on the list of lines, in place: the
      first line mentioning `varName` is overwritten, then the loop stops. */
  method ReplaceInPlace(lines: array<string>, varName: string, value: string)
    modifies lines
    ensures lines[..] == Replaced(old(lines[..]), varName, value)
  {
    var i := 0;
    while i < lines.Length
      invariant 0 <= i <= lines.Length
      invariant lines[..] == old(lines[..])
      invariant forall j | 0 <= j < i :: !Contains(lines[j], varName)
    {
      if Contains(lines[i], varName) {
        ghost var before := lines[..];
        lines[i] := DeclarationLine(varName, value);
        ReplacedLines(before, varName, value, i);
        assert lines[..] == before[i := DeclarationLine(varName, value)];
        break;
      }
      i := i + 1;
    }
    if i == lines.Length {
      NoMentionUnchanged(lines[..], varName, value);
    }
  }

  /** `update_css_color` without the file and the message box: split the
      stylesheet into lines, edit them in place, join them again. */
  method UpdateCssColor(css: string, varName: string, value: string) returns (newCss: string)
    ensures newCss == Join(Replaced(Split(css, '\n'), varName, value), "\n")
  {
    var lines := Split(css, '\n');
    var a := new string[|lines|](i requires 0 <= i < |lines| => lines[i]);
    assert a[..] == lines;
    ReplaceInPlace(a, varName, value);
    newCss := Join(a[..], "\n");
  }

  /** `toggle_card`: sets `--card-display` to `flex` or `none`. */
  method ToggleCard(css: string, showCard: bool) returns (newCss: string)
    ensures newCss == Join(Replaced(Split(css, '\n'), "--card-display", if showCard then "flex" else "none"), "\n")
  {
    var displayValue := if showCard then "flex" else "none";
    newCss := UpdateCssColor(css, "--card-display", displayValue);
  }

  // ---------------------------------------------------------------------
  // Writing a variable, then reading it back

  /** A value fit to be written and read back from its line: it cannot be
      cut by the reader's colon or semicolon, is not taken for an `rgba`
      colour, and has no whitespace the reader would strip. */
  predicate PlainValue(value: string) {
    ':' !in value && ';' !in value && !Contains(value, "rgba") && Trimmed(value)
  }

  /** The declaration line reads back as the value that was written. */
  lemma DeclarationReadsBack(varName: string, value: string)
    requires ':' !in varName && PlainValue(value)
    ensures Declares(DeclarationLine(varName, value), varName)
    ensures DeclaredValue(DeclarationLine(varName, value)) == value
    ensures ColorOf(value) == Some(value)
  {
    var line := DeclarationLine(varName, value);
    var head := "    " + varName;
    var tail := " " + value + ";";
    assert line == head + [':'] + tail;
    ContainsInfix("    ", varName, ": " + value + ";");
    assert line == "    " + varName + (": " + value + ";");
    SplitFirst(head, ':', tail);
    assert ':' !in tail;
    SplitWithout(tail, ':');
    assert tail == (" " + value) + [';'] + "";
    SplitFirst(" " + value, ';', "");
    StripPadded(" ", value);
  }

  /** After writing `value` for `varName` into lines that mention it,
      reading the variable back from the edited lines gives `value`. */
  lemma UpdateThenExtract(lines: seq<string>, varName: string, value: string)
    requires ':' !in varName && PlainValue(value)
    requires FirstMention(lines, varName).Some?
    ensures Extracted(Replaced(lines, varName, value), varName) == Some(value)
  {
    var k := FirstMention(lines, varName).value;
    var r := Replaced(lines, varName, value);
    ReplacedLines(lines, varName, value, k);
    DeclarationReadsBack(varName, value);
    forall j | 0 <= j < k ensures !Declares(r[j], varName) {
      assert r[j] == lines[j];
    }
    FirstIs(r, varName, k);
  }

  /** The same for the whole stylesheet text: after `update_css_color`
      has written `value`, `extract_color_from_css` on the new text's
      lines returns `value`. */
  lemma UpdateCssThenExtract(css: string, varName: string, value: string)
    requires ':' !in varName && '\n' !in varName && '\n' !in value && PlainValue(value)
    requires FirstMention(Split(css, '\n'), varName).Some?
    ensures Extracted(Split(Join(Replaced(Split(css, '\n'), varName, value), "\n"), '\n'), varName)
         == Some(value)
  {
    var lines := Split(css, '\n');
    var r := Replaced(lines, varName, value);
    var k := FirstMention(lines, varName).value;
    ReplacedLines(lines, varName, value, k);
    SplitPiecesFree(css, '\n');
    assert Free(r, '\n') by {
      forall j | 0 <= j < |r| ensures '\n' !in r[j] {
        if j == k {
          assert r[j] == "    " + varName + ": " + value + ";";
        } else {
          assert r[j] == lines[j];
        }
      }
    }
    SplitJoin(r, '\n');
    UpdateThenExtract(lines, varName, value);
  }

  /** Turning the card on or off and reading `--card-display` back gives
      `flex` or `none`. */
  lemma ToggleThenExtract(css: string, showCard: bool)
    requires FirstMention(Split(css, '\n'), "--card-display").Some?
    ensures Extracted(Split(Join(Replaced(Split(css, '\n'), "--card-display",
                                          if showCard then "flex" else "none"), "\n"), '\n'),
                      "--card-display")
         == Some(if showCard then "flex" else "none")
  {
    var v := if showCard then "flex" else "none";
    NotContainsFirst(v, "rgba");
    UpdateCssThenExtract(css, "--card-display", v);
  }
}
