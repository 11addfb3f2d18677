/**
 * The custom model fields: the fixed-choice fields with their choice
 * tables, defaults and lengths, the keyword arguments their constructors
 * set and their `deconstruct` removes, the fuzzy-choice field and the text
 * widget that renders its suggestions as a `<datalist>`.
 *
 * A field's keyword arguments are a dictionary updated in place.
 */
module Fields {

  import opened Wrappers

  // ---------------------------------------------------------------------------
  // Keyword arguments
  // ---------------------------------------------------------------------------

  /** A choice code: a string for the character fields, an integer for the year field. */
  datatype Code = StrCode(s: string) | IntCode(i: int)

  /** A widget a form field can be given. */
  datatype Widget = TextListWidget(dataList: seq<string>, name: string) | PhoneWidget | OtherWidget(kind: string)

  /** A keyword argument's value. */
  datatype Arg =
    | IntArg(i: int)
    | CodeArg(code: Code)
    | ChoicesArg(choices: seq<(Code, string)>)
    | DataArg(data: seq<string>)
    | WidgetArg(widget: Widget)
    | OtherArg(text: string)

  type KwargMap = map<string, Arg>

  /** A `kwargs` dictionary. */
  class Kwargs {
    var entries: KwargMap

    constructor (m: KwargMap)
      ensures entries == m
    {
      entries := m;
    }

    /** `kwargs[key] = value`. */
    method Set(key: string, value: Arg)
      modifies this
      ensures entries == old(entries)[key := value]
    {
      entries := entries[key := value];
    }

    /** `del kwargs[key]`: false when the key is missing, which raises `KeyError`. */
    method Delete(key: string) returns (found: bool)
      modifies this
      ensures found <==> key in old(entries)
      ensures entries == old(entries) - {key}
    {
      found := key in entries;
      entries := entries - {key};
    }
  }

  // ---------------------------------------------------------------------------
  // The fixed-choice fields
  // ---------------------------------------------------------------------------

  /** What a fixed-choice field's constructor forces: a maximum length (character fields only), choices and a default. */
  datatype ChoiceField = ChoiceField(maxLength: Option<nat>, choices: seq<(Code, string)>, default: Code)

  const ShirtSizeField := ChoiceField(Some(4), [
    (StrCode("XS"), "EXtra Small (XS)"),
    (StrCode("S"), "Small (S)"),
    (StrCode("M"), "Medium (M)"),
    (StrCode("L"), "Large (L)"),
    (StrCode("XL"), "Extra Large (XL)")
  ], StrCode("M"))

  const DegreeField := ChoiceField(Some(3), [
    (StrCode("bsc"), "Bachelor of Science"),
    (StrCode("ba"), "Bachelor of Arts"),
    (StrCode("msc"), "Master of Science"),
    (StrCode("ma"), "Master of Arts"),
    (StrCode("phd"), "PhD"),
    (StrCode("mba"), "MBA")
  ], StrCode("bsc"))

  const YearField := ChoiceField(None, [
    (IntCode(2016), "2016 (or before)"),
    (IntCode(2017), "2017"),
    (IntCode(2018), "2018"),
    (IntCode(2019), "2019"),
    (IntCode(2020), "2020"),
    (IntCode(2021), "2021"),
    (IntCode(2022), "2022"),
    (IntCode(2023), "2023 (or later)")
  ], IntCode(2018))

  const UniField := ChoiceField(Some(25), [
    (StrCode("JACOBS"), "Jacobs University"),
    (StrCode("OTHER"), "Other")
  ], StrCode("OTHER"))

  predicate IsCode(f: ChoiceField, c: Code)
  {
    exists i :: 0 <= i < |f.choices| && f.choices[i].0 == c
  }

  /** The table is usable: its default is a code, every code fits the length, and no code repeats. */
  predicate WellFormed(f: ChoiceField)
  {
    && IsCode(f, f.default)
    && (forall i :: 0 <= i < |f.choices| ==>
          f.maxLength.Some? ==> f.choices[i].0.StrCode? && |f.choices[i].0.s| <= f.maxLength.value)
    && (forall i, j :: 0 <= i < j < |f.choices| ==> f.choices[i].0 != f.choices[j].0)
  }

  lemma ShirtSizeWellFormed()
    ensures WellFormed(ShirtSizeField) && ShirtSizeField.maxLength == Some(4)
  {
    assert ShirtSizeField.choices[2].0 == ShirtSizeField.default;
  }

  lemma DegreeWellFormed()
    ensures WellFormed(DegreeField) && DegreeField.maxLength == Some(3)
  {
    assert DegreeField.choices[0].0 == DegreeField.default;
  }

  lemma YearWellFormed()
    ensures WellFormed(YearField) && YearField.maxLength.None?
  {
    assert YearField.choices[2].0 == YearField.default;
  }

  lemma UniWellFormed()
    ensures WellFormed(UniField) && UniField.maxLength == Some(25)
  {
    assert UniField.choices[1].0 == UniField.default;
  }

  /** The keys a field's constructor sets and its `deconstruct` deletes. */
  function ForcedKeys(f: ChoiceField): set<string>
  {
    if f.maxLength.Some? then {"max_length", "choices", "default"} else {"choices", "default"}
  }

  /** The year field forces only choices and default; the character fields force the length too. */
  lemma ForcedKeysByField()
    ensures ForcedKeys(ShirtSizeField) == ForcedKeys(DegreeField) == ForcedKeys(UniField) == {"max_length", "choices", "default"}
    ensures ForcedKeys(YearField) == {"choices", "default"}
  {
  }

  /** The keyword arguments after the constructor's assignments. */
  function InitKwargs(f: ChoiceField, kwargs: KwargMap): (r: KwargMap)
    ensures r.Keys == kwargs.Keys + ForcedKeys(f)
    ensures forall k :: k in kwargs && k !in ForcedKeys(f) ==> r[k] == kwargs[k]
    ensures f.maxLength.Some? ==> r["max_length"] == IntArg(f.maxLength.value)
    ensures r["choices"] == ChoicesArg(f.choices) && r["default"] == CodeArg(f.default)
  {
    var sized := if f.maxLength.Some? then kwargs["max_length" := IntArg(f.maxLength.value)] else kwargs;
    sized["choices" := ChoicesArg(f.choices)]["default" := CodeArg(f.default)]
  }

  /** `__init__`: the forced arguments overwrite whatever the caller passed for them. */
  method Init(f: ChoiceField, kwargs: Kwargs)
    modifies kwargs
    ensures kwargs.entries == InitKwargs(f, old(kwargs.entries))
  {
    if f.maxLength.Some? {
      kwargs.Set("max_length", IntArg(f.maxLength.value));
    }
    kwargs.Set("choices", ChoicesArg(f.choices));
    kwargs.Set("default", CodeArg(f.default));
  }

  /**
   * `deconstruct`, given what the parent's `deconstruct` returned: the
   * forced keys are deleted, all others kept; None when one of them is
   * missing (`KeyError`).
   */
  method Deconstruct(f: ChoiceField, parent: KwargMap) returns (r: Option<KwargMap>)
    ensures r.Some? <==> ForcedKeys(f) <= parent.Keys
    ensures r.Some? ==> r.value == parent - ForcedKeys(f)
  {
    var kwargs := new Kwargs(parent);
    var found: bool;
    if f.maxLength.Some? {
      found := kwargs.Delete("max_length");
      if !found { return None; }
    }
    found := kwargs.Delete("choices");
    if !found { return None; }
    found := kwargs.Delete("default");
    if !found { return None; }
    return Some(kwargs.entries);
  }

  /**
   * Deconstructing a constructed field keeps exactly the caller's other
   * arguments, and constructing again from them gives the same arguments.
   */
  lemma DeconstructRoundTrip(f: ChoiceField, kwargs: KwargMap)
    ensures ForcedKeys(f) <= InitKwargs(f, kwargs).Keys
    ensures InitKwargs(f, kwargs) - ForcedKeys(f) == kwargs - ForcedKeys(f)
    ensures InitKwargs(f, InitKwargs(f, kwargs) - ForcedKeys(f)) == InitKwargs(f, kwargs)
  {
    var once := InitKwargs(f, kwargs);
    var again := InitKwargs(f, once - ForcedKeys(f));
    assert again.Keys == once.Keys;
    forall k | k in once ensures again[k] == once[k] {
    }
  }

  // ---------------------------------------------------------------------------
  // The fuzzy-choice field and its widget
  // ---------------------------------------------------------------------------

  /** `FuzzyChoiceField.deconstruct`: `data` is added iff it is not None. */
  method FuzzyDeconstruct(data: Option<seq<string>>, parent: KwargMap) returns (r: KwargMap)
    ensures "data" in r <==> data.Some? || "data" in parent
    ensures data.Some? ==> r["data"] == DataArg(data.value)
    ensures forall k :: k in parent && k != "data" ==> k in r && r[k] == parent[k]
    ensures r.Keys <= parent.Keys + {"data"}
  {
    var kwargs := new Kwargs(parent);
    if data.Some? {
      kwargs.Set("data", DataArg(data.value));
    }
    return kwargs.entries;
  }

  /** `formfield`: a default widget, which the caller's keyword arguments override. */
  function FormfieldKwargs(widget: Widget, kwargs: KwargMap): (r: KwargMap)
    ensures r.Keys == kwargs.Keys + {"widget"}
    ensures forall k :: k in kwargs ==> r[k] == kwargs[k]
    ensures "widget" !in kwargs ==> r["widget"] == WidgetArg(widget)
  {
    map["widget" := WidgetArg(widget)] + kwargs
  }

  /** The fuzzy field's form field uses the list widget unless the caller gives another. */
  lemma FuzzyFormfieldWidget(dataList: seq<string>, name: string, kwargs: KwargMap)
    ensures FormfieldKwargs(TextListWidget(dataList, name), kwargs)["widget"]
            == if "widget" in kwargs then kwargs["widget"] else WidgetArg(TextListWidget(dataList, name))
  {
  }

  function OptionTag(item: string): string
  {
    "<option value=\"" + item + "\">"
  }

  /** One `<option>` per item, in order. */
  function Options(items: seq<string>): string
  {
    if items == [] then "" else Options(items[..|items| - 1]) + OptionTag(items[|items| - 1])
  }

  function DataListOpen(name: string): string
  {
    "<datalist id=\"list__" + name + "\">"
  }

  const DataListClose := "</datalist>"

  /** `s.count(c)` for one character. */
  function CountChar(s: string, c: char): nat
  {
    if s == [] then 0 else CountChar(s[..|s| - 1], c) + (if s[|s| - 1] == c then 1 else 0)
  }

  lemma {:induction false} CountCharAppend(a: string, b: string, c: char)
    ensures CountChar(a + b, c) == CountChar(a, c) + CountChar(b, c)
    decreases |b|
  {
    if b != [] {
      assert (a + b)[..|a + b| - 1] == a + b[..|b| - 1];
      assert (a + b)[|a + b| - 1] == b[|b| - 1];
      CountCharAppend(a, b[..|b| - 1], c);
    } else {
      assert a + b == a;
    }
  }

  lemma {:induction false} CountCharFree(s: string, c: char)
    requires c !in s
    ensures CountChar(s, c) == 0
    decreases |s|
  {
    if s != [] {
      assert c !in s[..|s| - 1];
      CountCharFree(s[..|s| - 1], c);
    }
  }

  /** Items without a `<` yield exactly one tag opening each: as many options as items. */
  lemma {:induction false} OptionCount(items: seq<string>)
    requires forall i :: 0 <= i < |items| ==> '<' !in items[i]
    ensures CountChar(Options(items), '<') == |items|
    decreases |items|
  {
    if items != [] {
      var last := items[|items| - 1];
      OptionCount(items[..|items| - 1]);
      CountCharAppend(Options(items[..|items| - 1]), OptionTag(last), '<');
      CountCharAppend("<option value=\"", last, '<');
      CountCharAppend("<option value=\"" + last, "\">", '<');
      CountCharFree(last, '<');
      assert CountChar("<option value=\"", '<') == 1 by {
        CountCharFree("<option value=\""[1..], '<');
        CountCharAppend("<", "<option value=\""[1..], '<');
        assert "<" + "<option value=\""[1..] == "<option value=\"";
      }
      assert CountChar("\">", '<') == 0 by { CountCharFree("\">", '<'); }
    }
  }

  /** `ListTextWidget`: a text input that points at a datalist of suggestions. */
  class ListTextWidget {
    var attrs: map<string, string>
    var name: string
    var dataList: seq<string>

    /** `__init__(data_list, name, attrs)`: the input's `list` attribute names the datalist. */
    constructor (dataList: seq<string>, name: string, attrs: Option<map<string, string>>)
      ensures this.name == name && this.dataList == dataList
      ensures this.attrs == (if attrs.Some? then attrs.value else map[])["list" := "list__" + name]
    {
      this.name := name;
      this.dataList := dataList;
      this.attrs := (if attrs.Some? then attrs.value else map[])["list" := "list__" + name];
    }

    /**
     * `render`: the text input rendered by the parent widget (`textHtml`),
     * then the datalist with one option per item, in order.
     */
    method Render(textHtml: string) returns (html: string)
      ensures html == textHtml + DataListOpen(name) + Options(dataList) + DataListClose
    {
      var list := DataListOpen(name);
      var i := 0;
      while i < |dataList|
        invariant 0 <= i <= |dataList|
        invariant list == DataListOpen(name) + Options(dataList[..i])
      {
        assert dataList[..i + 1][..i] == dataList[..i];
        list := list + OptionTag(dataList[i]);
        i := i + 1;
      }
      assert dataList[..i] == dataList;
      list := list + DataListClose;
      html := textHtml + list;
    }
  }
}
