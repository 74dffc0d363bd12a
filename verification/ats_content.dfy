/** Resume content as stored in the resume's JSON field, and the flat text
    the keyword search runs over (ats_checker/services.py,
    `_get_resume_text`). */
module ResumeContent {
  import opened Collections

  /** A JSON value.  Objects keep their keys in insertion order, as Python
      dicts do. */
  datatype Json =
    | Str(s: string)
    | Num(n: real)
    | Bool(b: bool)
    | Null
    | List(items: seq<Json>)
    | Map(entries: seq<(string, Json)>)

  /** `str(v)`: a string is itself; any other value is rendered by `render`,
      which stands for Python's own formatting of numbers, booleans, `None`,
      lists and dicts. */
  function Show(v: Json, render: Json -> string): string
  {
    if v.Str? then v.s else render(v)
  }

  /** `" ".join(str(v) for v in d.values())`. */
  function ShowValues(entries: seq<(string, Json)>, render: Json -> string): string
  {
    Join(" ", seq(|entries|, i requires 0 <= i < |entries| => Show(entries[i].1, render)))
  }

  /** The text one element of a list section contributes: a dict's values
      joined by spaces, anything else through `str`, then a space. */
  function ItemText(item: Json, render: Json -> string): string
  {
    if item.Map? then ShowValues(item.entries, render) + " " else Show(item, render) + " "
  }

  function ItemsText(items: seq<Json>, render: Json -> string): string
    decreases |items|
  {
    if |items| == 0 then "" else ItemText(items[0], render) + ItemsText(items[1..], render)
  }

  /** The text one top-level section contributes.  Only strings, lists and
      dicts contribute; numbers, booleans and `None` are skipped. */
  function SectionText(v: Json, render: Json -> string): string
  {
    match v
    case Str(s) => s + " "
    case List(items) => ItemsText(items, render)
    case Map(entries) => ShowValues(entries, render) + " "
    case _ => ""
  }

  function SectionsText(entries: seq<(string, Json)>, render: Json -> string): string
    decreases |entries|
  {
    if |entries| == 0 then "" else SectionText(entries[0].1, render) + SectionsText(entries[1..], render)
  }

  /** A section value of a type that contributes text. */
  predicate BearsText(e: (string, Json))
  {
    e.1.Str? || e.1.List? || e.1.Map?
  }

  /** `_get_resume_text`: a dict is flattened one level deep, a string is
      used as it is, anything else goes through `str`. */
  function ResumeText(content: Json, render: Json -> string): string
  {
    match content
    case Map(entries) => SectionsText(entries, render)
    case Str(s) => s
    case _ => render(content)
  }

  /** Flattening distributes over the sections. */
  lemma {:induction false} SectionsTextAppend(a: seq<(string, Json)>, b: seq<(string, Json)>, render: Json -> string)
    ensures SectionsText(a + b, render) == SectionsText(a, render) + SectionsText(b, render)
    decreases |a|
  {
    if |a| == 0 {
      assert a + b == b;
    } else {
      assert (a + b)[1..] == a[1..] + b;
      SectionsTextAppend(a[1..], b, render);
      var h := SectionText(a[0].1, render);
      assert SectionsText(a + b, render) == h + SectionsText(a[1..] + b, render);
      assert SectionsText(a, render) == h + SectionsText(a[1..], render);
    }
  }

  /** Sections holding a number, a boolean or `None` contribute nothing: the
      text is that of the dict without them. */
  lemma ScalarSectionsIgnored(entries: seq<(string, Json)>, render: Json -> string)
    ensures ResumeText(Map(entries), render) == ResumeText(Map(Filter(entries, BearsText)), render)
  {
    KeptSectionsText(entries, render);
  }

  lemma {:induction false} KeptSectionsText(entries: seq<(string, Json)>, render: Json -> string)
    ensures SectionsText(entries, render) == SectionsText(Filter(entries, BearsText), render)
    decreases |entries|
  {
    if |entries| > 0 {
      KeptSectionsText(entries[1..], render);
      var rest := Filter(entries[1..], BearsText);
      var head := SectionText(entries[0].1, render);
      assert SectionsText(entries, render) == head + SectionsText(entries[1..], render);
      if BearsText(entries[0]) {
        var kept := [entries[0]] + rest;
        assert Filter(entries, BearsText) == kept;
        assert kept[1..] == rest;
        assert SectionsText(kept, render) == head + SectionsText(rest, render);
      } else {
        assert head == "";
        assert Filter(entries, BearsText) == rest;
      }
    }
  }

  /** Every top-level string section appears verbatim in the text, followed
      by a space. */
  lemma {:induction false} StringSectionVerbatim(entries: seq<(string, Json)>, k: nat, render: Json -> string)
    requires k < |entries| && entries[k].1.Str?
    ensures IsInfix(entries[k].1.s + " ", ResumeText(Map(entries), render))
    decreases |entries|
  {
    var needle := entries[k].1.s + " ";
    var text := SectionsText(entries, render);
    var head := SectionText(entries[0].1, render);
    var tail := SectionsText(entries[1..], render);
    assert text == head + tail;
    if k == 0 {
      InfixOfPrefix(head, tail);
    } else {
      StringSectionVerbatim(entries[1..], k - 1, render);
      InfixOfSuffix(needle, head, tail);
    }
  }

  /** Why `section in content` fails: `in` on a number, boolean or `None`
      raises a TypeError. */
  datatype ContentError = NotIterable

  /** Some key of a dict is `name`. */
  predicate HasKey(entries: seq<(string, Json)>, name: string)
  {
    exists i :: 0 <= i < |entries| && entries[i].0 == name
  }

  /** Python's `name in content`: a key of a dict, a substring of a string,
      an element of a list; an error for any other value. */
  function Contains(content: Json, name: string): (r: Result<bool, ContentError>)
    ensures r.Err? <==> content.Num? || content.Bool? || content.Null?
    ensures content.Map? ==> r == Ok(HasKey(content.entries, name))
    ensures content.Str? ==> r == Ok(IsInfix(name, content.s))
    ensures content.List? ==> r == Ok(Str(name) in content.items)
  {
    match content
    case Map(entries) => Ok(HasKey(entries, name))
    case Str(s) => Ok(IsInfix(name, s))
    case List(items) => Ok(Str(name) in items)
    case _ => Err(NotIterable)
  }
}
