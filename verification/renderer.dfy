/**
  The three overrides app/views/utils/utils.js installs on the markdown
  renderer. `checkbox` renders a disabled task-list checkbox; `listitem`
  gives an item the task-list class when its text begins (after white space)
  with that checkbox's markup; `code` turns a `mermaid` block into a diagram
  container and any other block into a language-tagged code block. All three
  are string templates: the text they receive is embedded verbatim, without
  escaping.
 */
module Renderer {
  import opened Wrappers
  import opened Js

  /** The markup every checkbox begins with and `listitem` looks for. */
  const CheckboxMarker := "<input class=\"task-list-item-checkbox\""
  const TaskItemOpen := "<li class=\"task-list-li\">"
  const PlainItemOpen := "<li>"
  const ItemClose := "</li>"
  const DiagramOpen := "<div class=\"mermaid\">"
  const DiagramClose := "</div>"
  const CodeOpen := "<pre><code class=\"language-"
  const CodeOpenEnd := "\">"
  const CodeClose := "</code></pre>"

  /** The language tag that selects a diagram container. */
  const DiagramLanguage := "mermaid"

  const CheckedAttribute := " checked "
  const DisabledAttribute := " disabled "
  const CheckboxTail := "disabled type=\"checkbox\" /> "

  /** `renderer.checkbox(checked)`. */
  function Checkbox(checked: bool): (r: string)
    ensures CheckboxMarker <= r
  {
    CheckboxMarker + (" " + (if checked then "checked " else "") + CheckboxTail)
  }

  /** Whether a checkbox's markup marks it checked: the attribute that
      follows the marker. */
  function CheckboxState(html: string): Option<bool> {
    if !(CheckboxMarker <= html) then None
    else
      var rest := html[|CheckboxMarker|..];
      if CheckedAttribute <= rest then Some(true)
      else if DisabledAttribute <= rest then Some(false)
      else None
  }

  /** A checkbox reads back as checked exactly when it was rendered checked. */
  lemma CheckboxRoundTrip(checked: bool)
    ensures CheckboxState(Checkbox(checked)) == Some(checked)
  {
    var rest := " " + (if checked then "checked " else "") + CheckboxTail;
    StateAfterMarker(rest);
    if checked {
      CheckedRest();
    } else {
      UncheckedRest();
    }
  }

  lemma StateAfterMarker(rest: string)
    ensures CheckboxState(CheckboxMarker + rest) ==
      if CheckedAttribute <= rest then Some(true)
      else if DisabledAttribute <= rest then Some(false)
      else None
  {
    PrefixOfLonger(CheckboxMarker, CheckboxMarker, rest);
    assert (CheckboxMarker + rest)[|CheckboxMarker|..] == rest;
  }

  lemma CheckedRest()
    ensures CheckedAttribute <= " " + "checked " + CheckboxTail
  {
    assert " " + "checked " == CheckedAttribute;
    PrefixOfLonger(CheckedAttribute, CheckedAttribute, CheckboxTail);
  }

  lemma UncheckedRest()
    ensures !(CheckedAttribute <= " " + "" + CheckboxTail)
    ensures DisabledAttribute <= " " + "" + CheckboxTail
  {
    var rest := " " + "" + CheckboxTail;
    assert rest == " " + CheckboxTail;
    NotPrefixAt(CheckedAttribute, " " + "disabled ", "type=\"checkbox\" /> ", 1);
    assert " " + CheckboxTail == (" " + "disabled ") + "type=\"checkbox\" /> ";
    assert " " + "disabled " == DisabledAttribute;
    PrefixOfLonger(DisabledAttribute, DisabledAttribute, "type=\"checkbox\" /> ");
  }

  /** `/^\s*<input class="task-list-item-checkbox"/.test(text)`, computed by
      skipping the white space and testing for the marker. */
  predicate HasCheckboxMarker(text: string) {
    CheckboxMarker <= TrimStart(text)
  }

  /** `renderer.listitem(text)`. */
  function ListItem(text: string): string {
    if HasCheckboxMarker(text) then TaskItemOpen + text + ItemClose
    else PlainItemOpen + text + ItemClose
  }

  /** `language` as a template literal prints it: an absent tag reads `undefined`. */
  function LanguageText(language: Option<string>): string {
    match language
    case None => "undefined"
    case Some(l) => l
  }

  /** `renderer.code(code, language)`. */
  function Code(code: string, language: Option<string>): string {
    if language == Some(DiagramLanguage) then DiagramOpen + code + DiagramClose
    else CodeOpen + (LanguageText(language) + CodeOpenEnd + code) + CodeClose
  }

  /** `s` with `open` in front and `close` behind, if it has that shape. */
  function Between(s: string, open: string, close: string): (r: Option<string>)
    ensures r.Some? ==> s == open + r.value + close
  {
    if |open| + |close| <= |s| && open <= s && s[|s| - |close|..] == close then
      var inner := s[|open|..|s| - |close|];
      assert s == s[..|open|] + inner + s[|s| - |close|..];
      Some(inner)
    else None
  }

  lemma BetweenOf(open: string, inner: string, close: string)
    ensures Between(open + inner + close, open, close) == Some(inner)
  {
    var s := open + inner + close;
    assert s[|s| - |close|..] == close;
    assert s[|open|..|s| - |close|] == inner;
  }

  /** The class a rendered list item carries, and its text. */
  predicate IsTaskItem(html: string) {
    TaskItemOpen <= html
  }

  function ItemText(html: string): Option<string> {
    if IsTaskItem(html) then Between(html, TaskItemOpen, ItemClose)
    else Between(html, PlainItemOpen, ItemClose)
  }

  /** The diagram source inside a rendered diagram container. */
  function DiagramSource(html: string): Option<string> {
    Between(html, DiagramOpen, DiagramClose)
  }

  /** The text up to the first double quote. */
  function UpToQuote(s: string): (r: string)
    ensures r <= s && '"' !in r
    ensures |r| < |s| ==> s[|r|] == '"'
  {
    if |s| == 0 || s[0] == '"' then "" else [s[0]] + UpToQuote(s[1..])
  }

  lemma UpToQuoteOf(l: string, rest: string)
    requires '"' !in l
    requires |rest| > 0 && rest[0] == '"'
    ensures UpToQuote(l + rest) == l
  {
    var s := l + rest;
    var r := UpToQuote(s);
    assert s[..|l|] == l;
    assert r == s[..|r|];
  }

  /** The language tag and the code inside a rendered code block. */
  function CodeBlockSource(html: string): Option<(string, string)> {
    match Between(html, CodeOpen, CodeClose)
    case None => None
    case Some(inner) =>
      var language := UpToQuote(inner);
      var rest := inner[|language|..];
      if CodeOpenEnd <= rest then Some((language, rest[|CodeOpenEnd|..])) else None
  }

  /** A prefix of `b` is a prefix of anything that begins with `b`. */
  lemma PrefixOfLonger(a: string, b: string, c: string)
    requires a <= b
    ensures a <= b + c
  {
    assert (b + c)[..|b|] == b;
  }

  /** Two strings that differ at index `i` are not prefixes of each other's
      continuations. */
  lemma NotPrefixAt(a: string, b: string, c: string, i: nat)
    requires i < |a| && i < |b| && a[i] != b[i]
    ensures !(a <= b + c)
  {
    assert (b + c)[i] == b[i];
  }

  /** Skipping white space and testing for a word that does not begin with
      white space decides `^\s*word`. */
  lemma {:induction false} TrimmedPrefix(text: string, word: string)
    requires |word| > 0 && !IsSpace(word[0])
    ensures word <= TrimStart(text) <==>
      exists k | 0 <= k <= |text| :: AllSpace(text[..k]) && word <= text[k..]
  {
    if word <= TrimStart(text) {
      TrimmedPrefixWitness(text, word);
    }
    if k :| 0 <= k <= |text| && AllSpace(text[..k]) && word <= text[k..] {
      TrimmedPrefixFrom(text, word, k);
    }
  }

  lemma TrimmedPrefixWitness(text: string, word: string)
    requires word <= TrimStart(text)
    ensures var m := |text| - |TrimStart(text)|; AllSpace(text[..m]) && word <= text[m..]
  {
  }

  lemma TrimmedPrefixFrom(text: string, word: string, k: nat)
    requires |word| > 0 && !IsSpace(word[0])
    requires k <= |text| && AllSpace(text[..k]) && word <= text[k..]
    ensures word <= TrimStart(text)
  {
    assert text[k..][0] == word[0];
    TrimStartAt(text, k);
  }

  /** The task-list test is the regular expression's: some run of white
      space, then the checkbox marker. */
  lemma {:induction false} MarkerTestIsRegexMatch(text: string)
    ensures HasCheckboxMarker(text) <==>
      exists k | 0 <= k <= |text| :: AllSpace(text[..k]) && CheckboxMarker <= text[k..]
  {
    assert CheckboxMarker[0] == '<';
    TrimmedPrefix(text, CheckboxMarker);
  }

  /** A list item whose text is a checkbox's markup, after any white space,
      gets the task-list class, checked or not. */
  lemma CheckboxItemIsTaskItem(ws: string, checked: bool, rest: string)
    requires AllSpace(ws)
    ensures var text := ws + Checkbox(checked) + rest;
      ListItem(text) == TaskItemOpen + text + ItemClose
  {
    MarkedItemIsTaskItem(ws, Checkbox(checked), rest);
  }

  lemma MarkedItemIsTaskItem(ws: string, box: string, rest: string)
    requires AllSpace(ws) && CheckboxMarker <= box
    ensures var text := ws + box + rest;
      ListItem(text) == TaskItemOpen + text + ItemClose
  {
    var text := ws + box + rest;
    assert text[..|ws|] == ws;
    assert text[|ws|..] == box + rest;
    PrefixOfLonger(CheckboxMarker, box, rest);
    assert CheckboxMarker[0] == '<';
    TrimmedPrefixFrom(text, CheckboxMarker, |ws|);
  }

  /** A rendered item keeps its text verbatim, and has the task-list class
      exactly when the regular expression matches that text. */
  lemma ListItemRoundTrip(text: string)
    ensures ItemText(ListItem(text)) == Some(text)
    ensures IsTaskItem(ListItem(text)) <==>
      exists k | 0 <= k <= |text| :: AllSpace(text[..k]) && CheckboxMarker <= text[k..]
  {
    ListItemShape(text);
    MarkerTestIsRegexMatch(text);
  }

  lemma ListItemShape(text: string)
    ensures ItemText(ListItem(text)) == Some(text)
    ensures IsTaskItem(ListItem(text)) == HasCheckboxMarker(text)
  {
    if HasCheckboxMarker(text) {
      TaskItemShape(text);
    } else {
      PlainItemShape(text);
    }
  }

  lemma TaskItemShape(text: string)
    ensures IsTaskItem(TaskItemOpen + text + ItemClose)
    ensures ItemText(TaskItemOpen + text + ItemClose) == Some(text)
  {
    PrefixOfLonger(TaskItemOpen, TaskItemOpen, text + ItemClose);
    assert TaskItemOpen + text + ItemClose == TaskItemOpen + (text + ItemClose);
    BetweenOf(TaskItemOpen, text, ItemClose);
  }

  lemma PlainItemShape(text: string)
    ensures !IsTaskItem(PlainItemOpen + text + ItemClose)
    ensures ItemText(PlainItemOpen + text + ItemClose) == Some(text)
  {
    NotPrefixAt(TaskItemOpen, PlainItemOpen, text + ItemClose, 3);
    assert PlainItemOpen + text + ItemClose == PlainItemOpen + (text + ItemClose);
    BetweenOf(PlainItemOpen, text, ItemClose);
  }

  /** A diagram block holds the code verbatim and is not a code block; any
      other block is a code block that holds the language tag and the code
      verbatim, provided the tag has no double quote to end the attribute. */
  lemma CodeRoundTrip(code: string, language: Option<string>)
    requires '"' !in LanguageText(language)
    ensures language == Some(DiagramLanguage) ==>
      DiagramSource(Code(code, language)) == Some(code) && CodeBlockSource(Code(code, language)) == None
    ensures language != Some(DiagramLanguage) ==>
      CodeBlockSource(Code(code, language)) == Some((LanguageText(language), code)) &&
      DiagramSource(Code(code, language)) == None
  {
    if language == Some(DiagramLanguage) {
      DiagramShape(code);
    } else {
      CodeBlockShape(code, LanguageText(language));
    }
  }

  lemma DiagramShape(code: string)
    ensures DiagramSource(DiagramOpen + code + DiagramClose) == Some(code)
    ensures CodeBlockSource(DiagramOpen + code + DiagramClose) == None
  {
    BetweenOf(DiagramOpen, code, DiagramClose);
    DiffersAt(CodeOpen, DiagramOpen + code + DiagramClose, 1);
  }

  /** A string is not a prefix of one it differs from at some index. */
  lemma DiffersAt(a: string, s: string, i: nat)
    requires i < |a| && i < |s| && a[i] != s[i]
    ensures !(a <= s)
  {
  }

  lemma CodeBlockShape(code: string, l: string)
    requires '"' !in l
    ensures CodeBlockSource(CodeOpen + (l + CodeOpenEnd + code) + CodeClose) == Some((l, code))
    ensures DiagramSource(CodeOpen + (l + CodeOpenEnd + code) + CodeClose) == None
  {
    var inner := l + CodeOpenEnd + code;
    BetweenOf(CodeOpen, inner, CodeClose);
    assert inner == l + (CodeOpenEnd + code);
    UpToQuoteOf(l, CodeOpenEnd + code);
    assert inner[|l|..] == CodeOpenEnd + code;
    PrefixOfLonger(CodeOpenEnd, CodeOpenEnd, code);
    DiffersAt(DiagramOpen, CodeOpen + inner + CodeClose, 1);
  }
}
