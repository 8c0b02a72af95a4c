/** `client/src/pages/Templates.tsx`: the "Create Template" form's editable list
    of item texts, what the form posts, and the preview of an existing
    template's items. */
module TemplatesPage {
  import opened Outcomes
  import LessonStore
  import Seqs

  /** The form's three pieces of state: `newName`, `newDesc` and `newItems`. */
  datatype Form = Form(name: string, description: string, items: seq<string>)

  /** The form as first shown and as reset after a successful create. */
  const EmptyForm: Form := Form("", "", [""])

  /** `handleAddItem`: one more, empty, input at the end. */
  function AddItem(items: seq<string>): (r: seq<string>)
    ensures |r| == |items| + 1
    ensures r[..|items|] == items && r[|items|] == ""
  {
    items + [""]
  }

  /** `handleItemChange`: the input at `index` now holds `value`. The inputs are
      rendered from the list, so `index` is always one of its positions. */
  function ChangeItem(items: seq<string>, index: int, value: string): (r: seq<string>)
    requires 0 <= index < |items|
    ensures |r| == |items| && r[index] == value
    ensures forall i | 0 <= i < |items| && i != index :: r[i] == items[i]
  {
    items[index := value]
  }

  /** `handleRemoveInputItem`: `items.filter((_, i) => i !== index)`. */
  function RemoveItem(items: seq<string>, index: int): (r: seq<string>)
    ensures 0 <= index < |items| ==> r == items[..index] + items[index + 1..]
    ensures !(0 <= index < |items|) ==> r == items
    decreases |items|
  {
    if items == [] then []
    else
      var rest := RemoveItem(items[1..], index - 1);
      assert items == [items[0]] + items[1..];
      if index == 0 then rest else [items[0]] + rest
  }

  /** Removing the input just added gives back the list before the add. */
  lemma RemoveUndoesAdd(items: seq<string>)
    ensures RemoveItem(AddItem(items), |items|) == items
  {
  }

  /** Changing an input back to what it held gives back the list. */
  lemma ChangeBackRestores(items: seq<string>, index: int, value: string)
    requires 0 <= index < |items|
    ensures ChangeItem(ChangeItem(items, index, value), index, items[index]) == items
  {
  }

  // ----- Blank inputs -----

  /** The characters `String.prototype.trim` strips: ECMAScript's WhiteSpace
      (tab, vertical tab, form feed, space, no-break space, byte order mark and
      the Unicode space separators) and LineTerminator. */
  const JsWhitespace: set<char> := {
    '\t', '\n', '\U{000B}', '\U{000C}', '\r', ' ', '\U{00A0}', '\U{1680}',
    '\U{2000}', '\U{2001}', '\U{2002}', '\U{2003}', '\U{2004}', '\U{2005}',
    '\U{2006}', '\U{2007}', '\U{2008}', '\U{2009}', '\U{200A}',
    '\U{2028}', '\U{2029}', '\U{202F}', '\U{205F}', '\U{3000}', '\U{FEFF}'
  }

  predicate IsJsWhitespace(c: char) {
    c in JsWhitespace
  }

  /** How many whitespace characters `s` starts with. */
  function LeadingSpaces(s: string): (n: nat)
    ensures n <= |s|
    ensures forall i | 0 <= i < n :: IsJsWhitespace(s[i])
    ensures n < |s| ==> !IsJsWhitespace(s[n])
    decreases |s|
  {
    if s != [] && IsJsWhitespace(s[0]) then
      var n := LeadingSpaces(s[1..]);
      assert forall i | 1 <= i < |s| :: s[i] == s[1..][i - 1];
      1 + n
    else 0
  }

  /** How many whitespace characters `s` ends with. */
  function TrailingSpaces(s: string): (n: nat)
    ensures n <= |s|
    ensures forall i | |s| - n <= i < |s| :: IsJsWhitespace(s[i])
    ensures n < |s| ==> !IsJsWhitespace(s[|s| - 1 - n])
    decreases |s|
  {
    if s != [] && IsJsWhitespace(s[|s| - 1]) then
      var n := TrailingSpaces(s[..|s| - 1]);
      assert forall i | 0 <= i < |s| - 1 :: s[i] == s[..|s| - 1][i];
      1 + n
    else 0
  }

  /** `s.trim()`: the text between the leading and the trailing whitespace. The
      result is empty exactly for blank text, and otherwise starts and ends with a
      character that is not whitespace, so no more could be stripped. */
  function Trim(s: string): (r: string)
    ensures r == "" <==> forall i | 0 <= i < |s| :: IsJsWhitespace(s[i])
    ensures r != "" ==> !IsJsWhitespace(r[0]) && !IsJsWhitespace(r[|r| - 1])
    ensures LeadingSpaces(s) + |r| <= |s|
    ensures forall i | 0 <= i < |r| :: r[i] == s[LeadingSpaces(s) + i]
    ensures forall i | LeadingSpaces(s) + |r| <= i < |s| :: IsJsWhitespace(s[i])
  {
    var lead, trail := LeadingSpaces(s), TrailingSpaces(s);
    if lead == |s| then ""
    else
      assert !IsJsWhitespace(s[lead]);
      assert lead < |s| - trail;
      s[lead..|s| - trail]
  }

  predicate IsFilled(text: string) {
    Trim(text) != ""
  }

  /** The `items` sent with the create request: the inputs whose trimmed text
      is not empty, untrimmed and in the order of the form. */
  function SubmittedItems(items: seq<string>): (r: seq<string>)
    ensures forall i | 0 <= i < |r| :: r[i] in items && exists j | 0 <= j < |r[i]| :: !IsJsWhitespace(r[i][j])
    ensures forall i | 0 <= i < |items| && exists j | 0 <= j < |items[i]| :: !IsJsWhitespace(items[i][j]) :: items[i] in r
    ensures |r| <= |items|
  {
    Seqs.Filter(IsFilled, items)
  }

  /** Dropping blank inputs keeps the relative order of the rest: the items
      submitted from two runs of inputs are those of the first, then those of the second. */
  lemma SubmittedItemsKeepOrder(a: seq<string>, b: seq<string>)
    ensures SubmittedItems(a + b) == SubmittedItems(a) + SubmittedItems(b)
  {
    Seqs.FilterAppend(IsFilled, a, b);
  }

  /** The body of `POST /api/templates`. */
  datatype Request = Request(name: string, description: string, items: seq<string>)

  function RequestOf(form: Form): (req: Request)
    ensures req.name == form.name && req.description == form.description
    ensures req.items == SubmittedItems(form.items)
  {
    Request(form.name, form.description, SubmittedItems(form.items))
  }

  /** `handleCreateTemplate`'s effect on the form once the request settles:
      cleared after success, kept as typed after a failure. */
  function AfterSubmit(form: Form, succeeded: bool): (r: Form)
    ensures succeeded ==> r.name == "" && r.description == "" && r.items == [""]
    ensures !succeeded ==> r == form
  {
    if succeeded then EmptyForm else form
  }

  /** The template the server creates from the request the form sends carries the
      form's name and description, and has one item per filled input, in form order
      and numbered from 0, and no item whose text is blank. */
  lemma FormCreatesFilledItems(db: LessonStore.Db, form: Form, t: LessonStore.Template)
    requires var req := RequestOf(form);
      LessonStore.CreateTemplate(db, req.name, Some(req.description), Some(req.items)).result == Ok(t)
    ensures t.name == form.name && t.description == Some(form.description)
    ensures |t.items| == |SubmittedItems(form.items)|
    ensures forall i | 0 <= i < |t.items| ::
      t.items[i].text == SubmittedItems(form.items)[i] && t.items[i].order == i && IsFilled(t.items[i].text)
  {
    var req := RequestOf(form);
    assert forall i | 0 <= i < |req.items| :: IsFilled(req.items[i]);
  }

  // ----- Preview of a saved template -----

  /** Number of items a template card lists before summarising the rest. */
  const PreviewLength: nat := 3

  /** A template card's item list: the items shown and, when some are hidden,
      the number in the "+n more" line. */
  datatype Preview = Preview(shown: seq<LessonStore.TemplateItem>, more: Option<nat>)

  function PreviewOf(items: seq<LessonStore.TemplateItem>): (p: Preview)
    ensures p.shown <= items && |p.shown| == Seqs.Min(PreviewLength, |items|)
    ensures p.more.Some? <==> |items| > PreviewLength
    ensures |p.shown| + p.more.GetOr(0) == |items|
  {
    if |items| > PreviewLength then Preview(items[..PreviewLength], Some(|items| - PreviewLength))
    else Preview(items, None)
  }
}
