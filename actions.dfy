/**
 * The admin export helpers: looking up a `__`-separated property path on a
 * model object, the fallback chain around it, the conversion of values to
 * spreadsheet cells, and the header-plus-rows layout of the CSV and XLSX
 * exports.
 *
 * Python objects are modelled by what an attribute lookup on them gives:
 * a value, or an exception; display getters are modelled by what calling
 * them gives.
 */
module Actions {

  import opened Wrappers
  import opened Text
  import PathExt

  // ---------------------------------------------------------------------------
  // Values, objects and exceptions
  // ---------------------------------------------------------------------------

  /**
   * The exceptions a lookup can raise. The framework's "related object does
   * not exist" is both an attribute error and a "does not exist" error.
   */
  datatype Exception = AttributeError | DoesNotExist | RelatedDoesNotExist | TypeError | OtherError

  predicate IsAttributeError(e: Exception)
  {
    e == AttributeError || e == RelatedDoesNotExist
  }

  predicate IsDoesNotExist(e: Exception)
  {
    e == DoesNotExist || e == RelatedDoesNotExist
  }

  /** A value of one of the spreadsheet's known cell types. */
  datatype Scalar = IntCell(i: int) | StrCell(s: string) | BoolCell(b: bool) | NoneCell

  /**
   * A Python value: a known cell value, a list, or an object given by its
   * attributes, its `get_<field>_display` getters' results and its `str`.
   */
  datatype Value =
    | Known(c: Scalar)
    | List(items: seq<Value>)
    | Object(attrs: map<string, Lookup>, displays: map<string, Lookup>, text: string)

  /** What an attribute lookup or a call gives: a value, or a raised exception. */
  datatype Lookup = Returns(v: Value) | Raises(e: Exception)

  /** `getattr(obj, name)`. Cell values and lists have none of the model's attributes. */
  function GetAttr(obj: Value, name: string): (r: Lookup)
    ensures r.Returns? ==> obj.Object? && name in obj.attrs && obj.attrs[name] == r
  {
    if obj.Object? && name in obj.attrs then obj.attrs[name] else Raises(AttributeError)
  }

  // ---------------------------------------------------------------------------
  // get_direct_prop
  // ---------------------------------------------------------------------------

  /**
   * The last segment of a path: `get_<field>_display()` when the getter exists
   * and its call returns, otherwise `getattr(obj, field)`. Any failure of the
   * getter is swallowed.
   */
  function LastSegment(obj: Value, field: string): (r: Lookup)
    ensures obj.Object? && field in obj.displays && obj.displays[field].Returns? ==> r == obj.displays[field]
    ensures !(obj.Object? && field in obj.displays && obj.displays[field].Returns?) ==> r == GetAttr(obj, field)
  {
    if obj.Object? && field in obj.displays && obj.displays[field].Returns? then obj.displays[field]
    else GetAttr(obj, field)
  }

  /** `get_direct_prop(obj, fields)`. */
  function GetDirectProp(obj: Value, fields: seq<string>): Lookup
    decreases |fields|
  {
    if |fields| == 0 then Returns(obj)
    else if |fields| == 1 then LastSegment(obj, fields[0])
    else match GetAttr(obj, fields[0])
      case Raises(e) => Raises(e)
      case Returns(v) => GetDirectProp(v, fields[1..])
  }

  /** A chain of plain attribute lookups, stopping at the first exception. */
  function Walk(obj: Value, fields: seq<string>): Lookup
    decreases |fields|
  {
    if |fields| == 0 then Returns(obj)
    else match GetAttr(obj, fields[0])
      case Raises(e) => Raises(e)
      case Returns(v) => Walk(v, fields[1..])
  }

  /** The empty path gives the object itself. */
  lemma EmptyPathIsObject(obj: Value)
    ensures GetDirectProp(obj, []) == Returns(obj)
  {
  }

  /**
   * Display getters apply only at the last segment: a path is a plain walk
   * to the last object, then the last segment's lookup.
   */
  lemma {:induction false} DisplayOnlyAtLastSegment(obj: Value, fields: seq<string>)
    requires |fields| >= 1
    ensures GetDirectProp(obj, fields)
            == match Walk(obj, fields[..|fields| - 1])
               case Raises(e) => Raises(e)
               case Returns(v) => LastSegment(v, fields[|fields| - 1])
    decreases |fields|
  {
    if |fields| > 1 {
      match GetAttr(obj, fields[0])
      case Raises(e) =>
      case Returns(v) =>
        DisplayOnlyAtLastSegment(v, fields[1..]);
        assert fields[1..][..|fields[1..]| - 1] == fields[..|fields| - 1][1..];
        assert fields[1..][|fields[1..]| - 1] == fields[|fields| - 1];
    }
  }

  // ---------------------------------------------------------------------------
  // get_model_prop
  // ---------------------------------------------------------------------------

  /** The admin's methods that take the object, by name. */
  type AdminMethods = map<string, Value -> Lookup>

  /**
   * `get_model_prop(modeladmin, obj, field, default)`: the direct property;
   * on an attribute error the admin method of that name applied to the
   * object, or the default when there is none or it fails with an attribute
   * error; and the default on any "does not exist" error.
   */
  function GetModelProp(admin: AdminMethods, obj: Value, field: string, default: Value): Lookup
  {
    match GetDirectProp(obj, Split(field, "__"))
    case Returns(v) => Returns(v)
    case Raises(e) =>
      if IsAttributeError(e) then
        if field !in admin then Returns(default)
        else match admin[field](obj)
          case Returns(v) => Returns(v)
          case Raises(e2) =>
            if IsAttributeError(e2) || IsDoesNotExist(e2) then Returns(default) else Raises(e2)
      else if IsDoesNotExist(e) then Returns(default)
      else Raises(e)
  }

  /**
   * The fallback chain: a direct property is returned as it is, and the
   * only exceptions that escape are neither attribute errors nor "does not
   * exist" errors.
   */
  lemma GetModelPropFallback(admin: AdminMethods, obj: Value, field: string, default: Value)
    ensures GetDirectProp(obj, Split(field, "__")).Returns? ==> GetModelProp(admin, obj, field, default) == GetDirectProp(obj, Split(field, "__"))
    ensures GetModelProp(admin, obj, field, default).Raises? ==>
              !IsAttributeError(GetModelProp(admin, obj, field, default).e) && !IsDoesNotExist(GetModelProp(admin, obj, field, default).e)
    ensures GetDirectProp(obj, Split(field, "__")).Raises? && IsAttributeError(GetDirectProp(obj, Split(field, "__")).e) ==>
              GetModelProp(admin, obj, field, default)
              == (if field in admin && admin[field](obj).Returns? then admin[field](obj) else
                  if field in admin && !IsAttributeError(admin[field](obj).e) && !IsDoesNotExist(admin[field](obj).e) then admin[field](obj)
                  else Returns(default))
  {
  }

  /** A missing related record is an attribute error, so it reaches the admin method rather than the default. */
  lemma RelatedMissingTriesAdmin(admin: AdminMethods, obj: Value, field: string, default: Value)
    requires GetDirectProp(obj, Split(field, "__")) == Raises(RelatedDoesNotExist)
    requires field in admin && admin[field](obj).Returns?
    ensures GetModelProp(admin, obj, field, default) == admin[field](obj)
  {
  }

  // ---------------------------------------------------------------------------
  // to_excel
  // ---------------------------------------------------------------------------

  /** `hasattr(value, "name")`: true, false, or a non-attribute exception that escapes. */
  function HasName(v: Value): NameLookup
  {
    if !v.Object? || "name" !in v.attrs then NoName
    else match v.attrs["name"]
      case Returns(w) => Named(w)
      case Raises(e) => if IsAttributeError(e) then NoName else Failed(e)
  }

  datatype NameLookup = NoName | Named(w: Value) | Failed(e: Exception)

  /** The result of `to_excel`: a known cell value, or an exception. */
  datatype CellResult = Cell(c: Scalar) | Error(e: Exception)

  /**
   * `to_excel(value)`: known values unchanged; an object with a name, its
   * name converted; a list, its converted elements joined with `", "`
   * (every element must convert to a string); anything else, `str(value)`.
   */
  function ToExcel(v: Value): (r: CellResult)
    ensures v.Known? ==> r == Cell(v.c)
    ensures v.List? && r.Cell? ==> r.c.StrCell?
    ensures v.Object? && HasName(v).NoName? ==> r == Cell(StrCell(v.text))
    ensures v.Object? && HasName(v).Failed? ==> r == Error(HasName(v).e)
    decreases v, 1
  {
    match v
    case Known(c) => Cell(c)
    case List(items) => JoinCells(ConvertAll(items))
    case Object(_, _, text) =>
      match HasName(v)
      case Failed(e) => Error(e)
      case Named(w) => ToExcel(w)
      case NoName => Cell(StrCell(text))
  }

  /** `map(to_excel, items)` materialised: the first exception, if any. */
  function ConvertAll(items: seq<Value>): (r: Converted)
    ensures r.Ok? ==> |r.values| == |items| && forall i :: 0 <= i < |items| ==> ToExcel(items[i]) == Cell(r.values[i])
    decreases items, 0
  {
    if items == [] then Ok([])
    else match ToExcel(items[0])
      case Error(e) => Fail(e)
      case Cell(c) =>
        match ConvertAll(items[1..])
        case Fail(e) => Fail(e)
        case Ok(rest) => Ok([c] + rest)
  }

  datatype Converted = Ok(values: seq<Scalar>) | Fail(e: Exception)

  predicate AllStrings(cells: seq<Scalar>)
  {
    forall i :: 0 <= i < |cells| ==> cells[i].StrCell?
  }

  function Strings(cells: seq<Scalar>): (r: seq<string>)
    requires AllStrings(cells)
    ensures |r| == |cells| && forall i :: 0 <= i < |cells| ==> r[i] == cells[i].s
  {
    if cells == [] then [] else [cells[0].s] + Strings(cells[1..])
  }

  /** `", ".join(...)`: a type error unless every part is a string. */
  function JoinCells(converted: Converted): (r: CellResult)
    ensures r.Cell? ==> r.c.StrCell?
  {
    match converted
    case Fail(e) => Error(e)
    case Ok(cells) => if AllStrings(cells) then Cell(StrCell(Join(", ", Strings(cells)))) else Error(TypeError)
  }

  /**
   * A list converts element by element: the first exception of an element
   * escapes; all strings are joined with `", "`; any other converted value
   * makes the join a type error.
   */
  lemma ToExcelList(items: seq<Value>)
    ensures ConvertAll(items).Fail? ==> ToExcel(List(items)) == Error(ConvertAll(items).e)
    ensures ConvertAll(items).Ok? && AllStrings(ConvertAll(items).values) ==>
              ToExcel(List(items)) == Cell(StrCell(Join(", ", Strings(ConvertAll(items).values))))
    ensures ConvertAll(items).Ok? && !AllStrings(ConvertAll(items).values) ==> ToExcel(List(items)) == Error(TypeError)
  {
  }

  /** A list of strings becomes those strings joined with `", "`. */
  lemma ToExcelStringList(strs: seq<string>)
    ensures ToExcel(List(StringValues(strs))) == Cell(StrCell(Join(", ", strs)))
  {
    var items := StringValues(strs);
    var conv := ConvertAll(items);
    ConvertAllKnown(strs);
    assert Strings(conv.values) == strs;
  }

  function StringValues(strs: seq<string>): (r: seq<Value>)
    ensures |r| == |strs| && forall i :: 0 <= i < |strs| ==> r[i] == Known(StrCell(strs[i]))
  {
    if strs == [] then [] else [Known(StrCell(strs[0]))] + StringValues(strs[1..])
  }

  lemma {:induction false} ConvertAllKnown(strs: seq<string>)
    ensures ConvertAll(StringValues(strs)) == Ok(seq(|strs|, i requires 0 <= i < |strs| => StrCell(strs[i])))
  {
    if strs != [] {
      ConvertAllKnown(strs[1..]);
      var items := StringValues(strs);
      assert items[1..] == StringValues(strs[1..]);
    }
  }

  /** A list holding a number cannot be joined. */
  lemma ToExcelListWithNumber(n: int)
    ensures ToExcel(List([Known(IntCell(n))])) == Error(TypeError)
  {
    var items := [Known(IntCell(n))];
    assert items[1..] == [];
    assert ConvertAll(items) == Ok([IntCell(n)]);
    assert !AllStrings([IntCell(n)]);
  }

  /** An object's name is converted in its place; the name test comes before the list test. */
  lemma ToExcelNamed(attrs: map<string, Lookup>, displays: map<string, Lookup>, text: string, name: Value)
    requires "name" in attrs && attrs["name"] == Returns(name)
    ensures ToExcel(Object(attrs, displays, text)) == ToExcel(name)
  {
  }

  /** Converting a converted cell changes nothing. */
  lemma ToExcelIdempotent(v: Value)
    requires ToExcel(v).Cell?
    ensures ToExcel(Known(ToExcel(v).c)) == ToExcel(v)
  {
  }

  /** A cell of a spreadsheet row: `to_excel(prop)`, or `str(prop)` if that raises. */
  function MakeCell(c: Scalar): (r: Scalar)
    ensures r == c
  {
    match ToExcel(Known(c))
    case Cell(x) => x
    case Error(_) => StrCell(ScalarString(c))
  }

  /** `str` of a cell value. */
  function ScalarString(c: Scalar): string
  {
    match c
    case IntCell(i) => if i < 0 then "-" + DecimalString(-i) else DecimalString(i)
    case StrCell(s) => s
    case BoolCell(b) => if b then "True" else "False"
    case NoneCell => "None"
  }

  // ---------------------------------------------------------------------------
  // The exports
  // ---------------------------------------------------------------------------

  /** A model's options: `str(opts)` (its `app_label.model_name`) and its field names in declaration order. */
  datatype ModelOptions = ModelOptions(modelLabel: string, fieldNames: seq<string>)

  /** A stored row of the model: its values by field name. */
  type Row = map<string, Scalar>

  /** Every row of the queryset has a value for each field of the model. */
  predicate RowsOf(opts: ModelOptions, queryset: seq<Row>)
  {
    forall i, f :: 0 <= i < |queryset| && f in opts.fieldNames ==> f in queryset[i]
  }

  /** The exported columns: the given fields, or all the model's fields when none are given. */
  function ExportedFields(opts: ModelOptions, fields: Option<seq<string>>): (names: seq<string>)
    ensures fields.None? || fields.value == [] ==> names == opts.fieldNames
    ensures fields.Some? && fields.value != [] ==> names == fields.value
  {
    if fields.None? || fields.value == [] then opts.fieldNames else fields.value
  }

  /** `str(opts).replace('.', '_')`: the file name and sheet title. */
  function ExportBase(opts: ModelOptions): (r: string)
    ensures |r| == |opts.modelLabel| && '.' !in r
  {
    ReplaceChar(opts.modelLabel, '.', '_')
  }

  /** The exported file's extension is the one appended, for any model label without a slash. */
  lemma ExportFilenameExtension(opts: ModelOptions, ext: string)
    requires |opts.modelLabel| > 0 && '/' !in opts.modelLabel
    requires ext == ".csv" || ext == ".xlsx"
    ensures PathExt.SplitExt(ExportBase(opts) + ext) == (ExportBase(opts), ext)
  {
    var base := ExportBase(opts);
    assert '/' !in base by {
      forall j | 0 <= j < |base| ensures base[j] != '/' {
        assert opts.modelLabel[j] != '/';
      }
    }
    assert PathExt.RFind(base, '/') == -1;
    assert base[0] != '.';
    assert PathExt.LastComponentHasNonDot(base);
    PathExt.ExtensionOfAppend(base, ext);
  }

  /** A finished export: the response headers and the rows written, in order. */
  datatype Export = Export(headers: map<string, string>, title: Option<string>, rows: seq<seq<Scalar>>)

  const CsvContentType := "text/csv"
  const XlsxContentType := "application/application/vnd.openxmlformats-officedocument.spreadsheetml.sheet"

  /** A CSV writer or a worksheet: the rows appended so far. */
  class RowSink {
    var rows: seq<seq<Scalar>>

    constructor ()
      ensures rows == []
    {
      rows := [];
    }

    /** `writer.writerow(row)` / `ws.append(row)`. */
    method Append(row: seq<Scalar>)
      modifies this
      ensures rows == old(rows) + [row]
    {
      rows := rows + [row];
    }
  }

  function HeaderRow(names: seq<string>): (r: seq<Scalar>)
    ensures |r| == |names| && forall j :: 0 <= j < |names| ==> r[j] == StrCell(names[j])
  {
    if names == [] then [] else [StrCell(names[0])] + HeaderRow(names[1..])
  }

  /** `values_list(*names)` for one row; defined only when every name is a field. */
  function ValuesOf(row: Row, names: seq<string>): (r: seq<Scalar>)
    requires forall j :: 0 <= j < |names| ==> names[j] in row
    ensures |r| == |names| && forall j :: 0 <= j < |names| ==> r[j] == row[names[j]]
  {
    if names == [] then [] else [row[names[0]]] + ValuesOf(row, names[1..])
  }

  /** `[makeCell(c) for c in row]`. */
  method MakeCells(values: seq<Scalar>) returns (cells: seq<Scalar>)
    ensures cells == values
  {
    cells := [];
    var j := 0;
    while j < |values|
      invariant 0 <= j <= |values|
      invariant cells == values[..j]
    {
      cells := cells + [MakeCell(values[j])];
      assert values[..j + 1] == values[..j] + [values[j]];
      j := j + 1;
    }
  }

  predicate AllFields(opts: ModelOptions, names: seq<string>)
  {
    forall j :: 0 <= j < |names| ==> names[j] in opts.fieldNames
  }

  /**
   * `export_as_csv` (`xlsx` false) and `export_as_xslx` (`xlsx` true): None
   * when a requested column is not a field of the model, which the query
   * rejects; otherwise the header row iff `header`, then one row per element
   * of the queryset, each in the order of the exported fields.
   */
  method ExportRows(opts: ModelOptions, fields: Option<seq<string>>, header: bool, queryset: seq<Row>, xlsx: bool)
    returns (out: Option<Export>)
    requires RowsOf(opts, queryset)
    ensures out.None? <==> !AllFields(opts, ExportedFields(opts, fields))
    ensures out.Some? ==>
              var names := ExportedFields(opts, fields);
              var skip := if header then 1 else 0;
              && |out.value.rows| == skip + |queryset|
              && (header ==> out.value.rows[0] == HeaderRow(names))
              && var data := out.value.rows[skip..];
              && (forall i :: 0 <= i < |queryset| ==>
                    |data[i]| == |names| && forall j :: 0 <= j < |names| ==> data[i][j] == queryset[i][names[j]])
              && "Content-Type" in out.value.headers && "Content-Disposition" in out.value.headers
              && out.value.headers["Content-Type"] == (if xlsx then XlsxContentType else CsvContentType)
              && out.value.headers["Content-Disposition"]
                 == "attachment; filename=" + ExportBase(opts) + (if xlsx then ".xlsx" else ".csv")
              && (out.value.title.Some? <==> xlsx)
              && (xlsx ==> out.value.title.value == ExportBase(opts))
  {
    var names := ExportedFields(opts, fields);
    var headers := map["Content-Type" := if xlsx then XlsxContentType else CsvContentType];
    headers := headers["Content-Disposition" := "attachment; filename=" + ExportBase(opts) + (if xlsx then ".xlsx" else ".csv")];
    var sink := new RowSink();
    if header {
      sink.Append(HeaderRow(names));
    }
    if !AllFields(opts, names) {
      return None;
    }
    var skip := if header then 1 else 0;
    var i := 0;
    while i < |queryset|
      invariant 0 <= i <= |queryset|
      invariant |sink.rows| == skip + i
      invariant header ==> sink.rows[0] == HeaderRow(names)
      invariant forall k :: 0 <= k < i ==> sink.rows[skip..][k] == ValuesOf(queryset[k], names)
    {
      var values := ValuesOf(queryset[i], names);
      if xlsx {
        values := MakeCells(values);
      }
      sink.Append(values);
      i := i + 1;
    }
    forall k | 0 <= k < |queryset|
      ensures |sink.rows[skip..][k]| == |names|
      ensures forall j :: 0 <= j < |names| ==> sink.rows[skip..][k][j] == queryset[k][names[j]]
    {
      assert sink.rows[skip..][k] == ValuesOf(queryset[k], names);
    }
    out := Some(Export(headers, if xlsx then Some(ExportBase(opts)) else None, sink.rows));
  }
}
