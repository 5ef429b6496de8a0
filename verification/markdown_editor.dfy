/** The markdown toolbar's splice: the selection of the editor's text is
    wrapped in a pair of markers (or a placeholder word is inserted between
    them when nothing is selected) and the cursor is put just after the
    wrapped text. The text area itself is replaced by the selection
    offsets. */
module MarkdownEditor {

  function Clamp(x: int, len: nat): (c: nat)
    ensures c <= len
    ensures 0 <= x <= len ==> c == x
  {
    if x < 0 then 0 else if x > len then len else x
  }

  /** JavaScript's `substring(a, b)`: both ends clamped to the string, and
      swapped when given in the wrong order. */
  function Substring(s: string, a: int, b: int): (r: string)
    ensures 0 <= a <= b <= |s| ==> r == s[a..b]
    ensures |r| <= |s|
  {
    var x, y := Clamp(a, |s|), Clamp(b, |s|);
    if x <= y then s[x..y] else s[y..x]
  }

  /** The order of the two ends does not matter. */
  lemma SubstringSymmetric(s: string, a: int, b: int)
    ensures Substring(s, a, b) == Substring(s, b, a)
  {
  }

  /** Substrings from the start to the end of a string. */
  function SubstringFrom(s: string, a: int): (r: string)
    ensures 0 <= a <= |s| ==> r == s[a..]
  {
    Substring(s, a, |s|)
  }

  /** The word inserted when nothing is selected. */
  const Placeholder: string := "text"

  /** The result of an insertion: the new text and the new cursor. */
  datatype Edit = Edit(text: string, cursor: int)

  function Selected(value: string, start: int, end: int): (r: string)
    ensures |r| > 0
    ensures 0 <= start <= end <= |value| && start < end ==> r == value[start..end]
    ensures 0 <= start <= end <= |value| && start == end ==> r == Placeholder
  {
    var s := Substring(value, start, end);
    if s == "" then Placeholder else s
  }

  /** `insertMarkdown(before, after)` on a text with selection
      `[start, end)`. */
  function InsertMarkdown(value: string, start: int, end: int, before: string, after: string): (r: Edit)
    ensures 0 <= start <= end <= |value| ==>
      var sel := Selected(value, start, end);
      && r.text == value[..start] + before + sel + after + value[end..]
      && r.cursor == start + |before| + |sel|
  {
    var sel := Selected(value, start, end);
    Edit(Substring(value, 0, start) + before + sel + after + SubstringFrom(value, end), start + |before| + |sel|)
  }

  /** The text before the selection and after it survive as prefix and
      suffix; the markers and the selection fill the middle; the length
      grows by the two markers and the difference between the inserted
      word and the selection. */
  lemma InsertShape(value: string, start: nat, end: nat, before: string, after: string)
    requires start <= end <= |value|
    ensures var r := InsertMarkdown(value, start, end, before, after);
      var sel := Selected(value, start, end);
      && r.text[..start] == value[..start]
      && r.text[|r.text| - (|value| - end)..] == value[end..]
      && r.text[start..|r.text| - (|value| - end)] == before + sel + after
      && |r.text| == |value| - (end - start) + |before| + |sel| + |after|
  {
    var r := InsertMarkdown(value, start, end, before, after);
    var sel := Selected(value, start, end);
    assert r.text == value[..start] + (before + sel + after) + value[end..];
  }

  /** The cursor lands just after the selection, at the closing marker. */
  lemma CursorBeforeClosingMarker(value: string, start: nat, end: nat, before: string, after: string)
    requires start <= end <= |value|
    ensures var r := InsertMarkdown(value, start, end, before, after);
      && start < r.cursor <= |r.text|
      && r.text[r.cursor - |Selected(value, start, end)|..r.cursor] == Selected(value, start, end)
      && r.text[r.cursor..r.cursor + |after|] == after
  {
    var r := InsertMarkdown(value, start, end, before, after);
    var sel := Selected(value, start, end);
    var head := value[..start] + before;
    assert r.text == head + sel + (after + value[end..]);
    assert |head| == start + |before|;
    assert r.text[|head|..|head| + |sel|] == sel;
    assert r.text[|head| + |sel|..] == after + value[end..];
  }

  /** Cutting the two markers back out of a wrapped selection gives the
      original text. */
  lemma UnwrapRestores(value: string, start: nat, end: nat, before: string, after: string)
    requires start < end <= |value|
    ensures var r := InsertMarkdown(value, start, end, before, after);
      r.text[..start] + r.text[start + |before|..r.cursor] + r.text[r.cursor + |after|..] == value
  {
    var r := InsertMarkdown(value, start, end, before, after);
    assert Selected(value, start, end) == value[start..end];
    UnwrapAt(value, start, end, before, after, r.text, r.cursor);
  }

  lemma UnwrapAt(value: string, start: nat, end: nat, before: string, after: string, text: string, cursor: int)
    requires start < end <= |value|
    requires text == value[..start] + before + value[start..end] + after + value[end..]
    requires cursor == start + |before| + (end - start)
    ensures text[..start] + text[start + |before|..cursor] + text[cursor + |after|..] == value
  {
    OddParts(value[..start], before, value[start..end], after, value[end..]);
    assert value[..start] + value[start..end] + value[end..] == value;
  }

  /** The first, third and fifth parts of a five-part concatenation, cut
      back out by their lengths. */
  lemma OddParts(a: string, b: string, c: string, d: string, e: string)
    ensures var t := a + b + c + d + e;
      && t[..|a|] == a
      && t[|a| + |b|..|a| + |b| + |c|] == c
      && t[|a| + |b| + |c| + |d|..] == e
  {
    var t := a + b + c + d + e;
    assert t == a + (b + c + d + e);
    assert t == (a + b) + c + (d + e);
    assert t == (a + b + c + d) + e;
  }

  /** The toolbar's buttons and the markers they insert. */
  datatype Button = Bold | Italic | Heading | ListItem | Code | Link

  function Markers(b: Button): (m: (string, string))
    ensures |m.0| > 0
    ensures b in {Heading, ListItem} <==> m.1 == ""
  {
    match b
    case Bold => ("**", "**")
    case Italic => ("*", "*")
    case Heading => ("## ", "")
    case ListItem => ("- ", "")
    case Code => ("`", "`")
    case Link => ("[", "](url)")
  }

  /** A toolbar button wraps the selection (or the placeholder) in its
      markers and puts the cursor after it. */
  function Press(b: Button, value: string, start: int, end: int): (r: Edit)
    ensures 0 <= start <= end <= |value| ==>
      && r.text == value[..start] + Markers(b).0 + Selected(value, start, end) + Markers(b).1 + value[end..]
      && r.cursor == start + |Markers(b).0| + |Selected(value, start, end)|
  {
    InsertMarkdown(value, start, end, Markers(b).0, Markers(b).1)
  }

  /** Pressing Bold on an empty editor inserts the bold placeholder and
      puts the cursor before the closing marker. */
  lemma BoldOnEmpty()
    ensures Press(Bold, "", 0, 0) == Edit("**text**", 6)
  {
    assert Selected("", 0, 0) == Placeholder;
  }
}
