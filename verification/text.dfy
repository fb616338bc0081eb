/** Text handling of the chat widget: the whitespace trim of the message box
    and the splice that inserts an emoji at the cursor. */
module Text {

  datatype Option<T> = None | Some(value: T)

  /** The characters JavaScript's `String.prototype.trim` removes: the white
      space and line terminator characters of ECMAScript. */
  const JsWhitespace: set<char> := {
    '\t', '\n', '\U{000B}', '\U{000C}', '\r', ' ', '\U{00A0}', '\U{1680}',
    '\U{2000}', '\U{2001}', '\U{2002}', '\U{2003}', '\U{2004}', '\U{2005}',
    '\U{2006}', '\U{2007}', '\U{2008}', '\U{2009}', '\U{200A}',
    '\U{2028}', '\U{2029}', '\U{202F}', '\U{205F}', '\U{3000}', '\U{FEFF}'
  }

  predicate IsJsWhitespace(c: char) {
    c in JsWhitespace
  }

  predicate AllWhitespace(s: string) {
    forall k :: 0 <= k < |s| ==> IsJsWhitespace(s[k])
  }

  /** `s` without its leading white space. */
  function TrimStart(s: string): (r: string)
    ensures |r| <= |s| && r == s[|s| - |r|..]
    ensures AllWhitespace(s[..|s| - |r|])
    ensures r != [] ==> !IsJsWhitespace(r[0])
  {
    if s != [] && IsJsWhitespace(s[0]) then TrimStart(s[1..]) else s
  }

  /** `s` without its trailing white space. */
  function TrimEnd(s: string): (r: string)
    ensures |r| <= |s| && r == s[..|r|]
    ensures AllWhitespace(s[|r|..])
    ensures r != [] ==> !IsJsWhitespace(r[|r| - 1])
  {
    if s != [] && IsJsWhitespace(s[|s| - 1]) then TrimEnd(s[..|s| - 1]) else s
  }

  /** Cutting white space off the front and then off the back takes out one
      slice `s[i..j]`, with only white space before `i` and after `j`. */
  lemma {:induction false} WhitespaceSlice(s: string, t: string, r: string)
    requires |t| <= |s| && t == s[|s| - |t|..] && AllWhitespace(s[..|s| - |t|])
    requires |r| <= |t| && r == t[..|r|] && AllWhitespace(t[|r|..])
    ensures r == s[|s| - |t|..|s| - |t| + |r|]
    ensures AllWhitespace(s[|s| - |t| + |r|..])
  {
    var j := |s| - |t| + |r|;
    assert s[j..] == t[|r|..];
  }

  /** Trimming both ends leaves nothing exactly when everything is white space,
      and otherwise leaves non-white characters at both ends. */
  lemma {:induction false} TrimEnds(s: string)
    ensures TrimEnd(TrimStart(s)) == "" <==> AllWhitespace(s)
    ensures TrimEnd(TrimStart(s)) != "" ==> TrimEnd(TrimStart(s))[0] == TrimStart(s)[0]
  {
    var t := TrimStart(s);
    assert t != [] ==> s[|s| - |t|] == t[0];
    assert t == [] ==> s[..|s|] == s;
  }

  /** JavaScript's `trim`: `s` without leading and trailing white space. */
  function Trim(s: string): (r: string)
    ensures r == "" <==> AllWhitespace(s)
    ensures r != "" ==> !IsJsWhitespace(r[0]) && !IsJsWhitespace(r[|r| - 1])
    ensures exists i, j :: 0 <= i <= j <= |s| && r == s[i..j] && AllWhitespace(s[..i]) && AllWhitespace(s[j..])
  {
    var t := TrimStart(s);
    WhitespaceSlice(s, t, TrimEnd(t));
    TrimEnds(s);
    TrimEnd(t)
  }

  /** Trimming a trimmed message changes nothing. */
  lemma TrimIdempotent(s: string)
    ensures Trim(Trim(s)) == Trim(s)
  {
  }

  /** A text input as the page holds it: its value and its selection, either end
      of which may be absent. */
  datatype TextField = TextField(value: string, selectionStart: Option<nat>, selectionEnd: Option<nat>)

  /** Start of the selection; an absent start is the end of the value. */
  function SelectionStart(f: TextField): nat {
    match f.selectionStart
    case Some(s) => s
    case None => |f.value|
  }

  /** End of the selection; an absent end is the end of the value. */
  function SelectionEnd(f: TextField): nat {
    match f.selectionEnd
    case Some(e) => e
    case None => |f.value|
  }

  /** What the page guarantees of a text input's selection. */
  predicate ValidSelection(f: TextField) {
    SelectionStart(f) <= SelectionEnd(f) <= |f.value|
  }

  /** Replace the selection by `text` and put the cursor just after it. */
  function InsertAtCursor(f: TextField, text: string): (r: TextField)
    requires ValidSelection(f)
    ensures ValidSelection(r)
    ensures r.selectionStart == r.selectionEnd == Some(SelectionStart(f) + |text|)
    ensures |r.value| == |f.value| - (SelectionEnd(f) - SelectionStart(f)) + |text|
    ensures r.value[..SelectionStart(f)] == f.value[..SelectionStart(f)]
    ensures r.value[SelectionStart(f)..SelectionStart(f) + |text|] == text
    ensures r.value[SelectionStart(f) + |text|..] == f.value[SelectionEnd(f)..]
  {
    var start := SelectionStart(f);
    var end := SelectionEnd(f);
    var pos := start + |text|;
    TextField(f.value[..start] + text + f.value[end..], Some(pos), Some(pos))
  }

  /** With no selection the text is appended to the value. */
  lemma InsertWithoutSelection(f: TextField, text: string)
    requires f.selectionStart == None && f.selectionEnd == None
    ensures InsertAtCursor(f, text).value == f.value + text
  {
  }

  /** Inserting two pieces one after the other is inserting their concatenation:
      the first insertion leaves the cursor where the second continues. */
  lemma InsertTwice(f: TextField, a: string, b: string)
    requires ValidSelection(f)
    ensures InsertAtCursor(InsertAtCursor(f, a), b) == InsertAtCursor(f, a + b)
  {
  }

  /** Inserting nothing at a collapsed cursor changes nothing. */
  lemma InsertNothing(f: TextField)
    requires ValidSelection(f) && f.selectionStart.Some? && f.selectionStart == f.selectionEnd
    ensures InsertAtCursor(f, "") == f
  {
  }
}
