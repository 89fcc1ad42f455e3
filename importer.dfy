/**
 * The field registry and row formatter (FMPImporter, filemaker.py:34-124): field definitions
 * read from FIELD elements, kept in declaration order, and used to coerce each row's texts.
 */
module Importer {
  import opened Wrappers
  import opened Chars
  import opened OrderedMaps
  import opened Coercion
  import opened Nodes

  const DefaultDateFormat := "%Y/%m/%d"

  /** The four-tuple `(name, kind, maxrepeat, empty)` the registry stores per field. */
  datatype FieldDef = FieldDef(name: string, kind: string, maxRepeat: int, emptyOk: bool)

  /** The exceptions the import raises. */
  datatype ImportError =
    | MissingAttribute(key: string)                                        // KeyError on node.attrs
    | BadMaxRepeat(text: string)                                           // ValueError from int()
    | UnknownField(field: string)                                          // KeyError on self.fields
    | FieldFormat(field: string, raw: string, kind: string, cause: CoercionError)  // ValueError, re-raised
    | EmptyStack                                                           // IndexError: pop from empty list
    | NoCurrentNode                                                        // AttributeError on None

  /**
   * Lines 47-52 of add_field: the NAME, TYPE, MAXREPEAT and EMPTYOK attributes, read in that order;
   * a missing one raises KeyError, a MAXREPEAT that int() rejects raises ValueError.
   */
  function FieldFromAttributes(attrs: map<string, string>): (r: Result<FieldDef, ImportError>)
    ensures r.Ok? <==> "NAME" in attrs && "TYPE" in attrs && "MAXREPEAT" in attrs && "EMPTYOK" in attrs &&
                       ParseInt(attrs["MAXREPEAT"]).Some?
    ensures r.Ok? ==> r.value == FieldDef(attrs["NAME"], attrs["TYPE"], ParseInt(attrs["MAXREPEAT"]).value,
                                          attrs["EMPTYOK"] == "YES")
    ensures "NAME" !in attrs ==> r == Err(MissingAttribute("NAME"))
    ensures "NAME" in attrs && "TYPE" !in attrs ==> r == Err(MissingAttribute("TYPE"))
    ensures "NAME" in attrs && "TYPE" in attrs && "MAXREPEAT" !in attrs ==> r == Err(MissingAttribute("MAXREPEAT"))
    ensures "NAME" in attrs && "TYPE" in attrs && "MAXREPEAT" in attrs && ParseInt(attrs["MAXREPEAT"]).None? ==>
            r == Err(BadMaxRepeat(attrs["MAXREPEAT"]))
    ensures "NAME" in attrs && "TYPE" in attrs && "MAXREPEAT" in attrs && ParseInt(attrs["MAXREPEAT"]).Some? &&
              "EMPTYOK" !in attrs ==>
            r == Err(MissingAttribute("EMPTYOK"))
  {
    if "NAME" !in attrs then Err(MissingAttribute("NAME"))
    else if "TYPE" !in attrs then Err(MissingAttribute("TYPE"))
    else if "MAXREPEAT" !in attrs then Err(MissingAttribute("MAXREPEAT"))
    else match ParseInt(attrs["MAXREPEAT"])
      case None => Err(BadMaxRepeat(attrs["MAXREPEAT"]))
      case Some(n) =>
        if "EMPTYOK" !in attrs then Err(MissingAttribute("EMPTYOK"))
        else Ok(FieldDef(attrs["NAME"], attrs["TYPE"], n, attrs["EMPTYOK"] == "YES"))
  }

  /**
   * The coercion of one cell of a row, with the context format_dict prints when it fails. An
   * unregistered key raises KeyError; a registered one fails exactly where its coercion does, and
   * only DATE and TIME coercions can fail.
   */
  function FormatField(fields: map<string, FieldDef>, key: string, raw: string, datefmt: string,
                       strptime: DateParser): (r: Result<Value, ImportError>)
    ensures key !in fields ==> r == Err(UnknownField(key))
    ensures key in fields ==> (r.Ok? <==> FormatValue(fields[key].kind, raw, datefmt, strptime).Ok?)
    ensures key in fields && fields[key].kind != "DATE" && fields[key].kind != "TIME" ==> r.Ok?
    ensures r.Err? && key in fields ==> r.error.FieldFormat? && r.error.field == fields[key].name && r.error.raw == raw
  {
    if key !in fields then Err(UnknownField(key))
    else
      var f := fields[key];
      match FormatValue(f.kind, raw, datefmt, strptime)
      case Ok(v) => Ok(v)
      case Err(e) => Err(FieldFormat(f.name, raw, f.kind, e))
  }

  /** A registered key's cell, when it succeeds, holds the value its field's coercion produced. */
  lemma FormatFieldValue(fields: map<string, FieldDef>, key: string, raw: string, datefmt: string,
                         strptime: DateParser)
    requires key in fields && FormatField(fields, key, raw, datefmt, strptime).Ok?
    ensures FormatField(fields, key, raw, datefmt, strptime).value == FormatValue(fields[key].kind, raw, datefmt, strptime).value
  {
  }

  /** The coercion format_dict applies to each key of the row `raw`. */
  function FieldCells(fields: map<string, FieldDef>, raw: map<string, string>, datefmt: string,
                      strptime: DateParser): (cell: string --> Result<Value, ImportError>)
    ensures forall k :: k in raw ==> cell.requires(k) && cell(k) == FormatField(fields, k, raw[k], datefmt, strptime)
  {
    k requires k in raw => FormatField(fields, k, raw[k], datefmt, strptime)
  }

  /**
   * format_dict over the given keys of a row: each key's value coerced in turn, the first error
   * aborting. A result has every key.
   */
  function FormatEntries(fields: map<string, FieldDef>, keys: seq<string>, raw: map<string, string>,
                         datefmt: string, strptime: DateParser): (r: Result<OrderedMap<Value>, ImportError>)
    requires forall k :: k in keys ==> k in raw
    ensures r.Ok? ==> forall i :: 0 <= i < |keys| ==> keys[i] in r.value.entries
  {
    PutEach(keys, FieldCells(fields, raw, datefmt, strptime))
  }

  /** A row that comes out means every key's value coerced; an error is the error of one of the keys. */
  lemma FormatEntriesOutcome(fields: map<string, FieldDef>, keys: seq<string>, raw: map<string, string>,
                             datefmt: string, strptime: DateParser)
    requires forall k :: k in keys ==> k in raw
    ensures var r := FormatEntries(fields, keys, raw, datefmt, strptime);
            (r.Ok? ==> forall i :: 0 <= i < |keys| ==> FormatField(fields, keys[i], raw[keys[i]], datefmt, strptime).Ok?) &&
            (r.Err? ==> exists i :: 0 <= i < |keys| && FormatField(fields, keys[i], raw[keys[i]], datefmt, strptime) == Err(r.error))
  {
    var cell := FieldCells(fields, raw, datefmt, strptime);
    assert forall i :: 0 <= i < |keys| ==> cell(keys[i]) == FormatField(fields, keys[i], raw[keys[i]], datefmt, strptime);
  }

  /** One more key: the accumulated row extended by its coerced value, or that value's error. */
  lemma FormatEntriesStep(fields: map<string, FieldDef>, keys: seq<string>, i: nat, raw: map<string, string>,
                          datefmt: string, strptime: DateParser, acc: OrderedMap<Value>)
    requires forall k :: k in keys ==> k in raw
    requires i < |keys| && FormatEntries(fields, keys[..i], raw, datefmt, strptime) == Ok(acc)
    ensures var cell := FormatField(fields, keys[i], raw[keys[i]], datefmt, strptime);
            FormatEntries(fields, keys[..i + 1], raw, datefmt, strptime) ==
              if cell.Ok? then Ok(acc.Put(keys[i], cell.value)) else Err(cell.error)
  {
    PutEachStep(keys, i, FieldCells(fields, raw, datefmt, strptime), acc);
  }

  /**
   * One turn of format_dict's loop, case by case: an unregistered key or a value that does not coerce
   * ends the whole row with that error; otherwise the row so far is extended by the coerced value.
   */
  lemma FormatKeyStep(fields: map<string, FieldDef>, keys: seq<string>, i: nat, raw: map<string, string>,
                      datefmt: string, strptime: DateParser, acc: OrderedMap<Value>)
    requires forall k :: k in keys ==> k in raw
    requires i < |keys| && FormatEntries(fields, keys[..i], raw, datefmt, strptime) == Ok(acc)
    ensures keys[i] !in fields ==> FormatEntries(fields, keys, raw, datefmt, strptime) == Err(UnknownField(keys[i]))
    ensures keys[i] in fields && FormatValue(fields[keys[i]].kind, raw[keys[i]], datefmt, strptime).Err? ==>
              var f := fields[keys[i]];
              FormatEntries(fields, keys, raw, datefmt, strptime) ==
                Err(FieldFormat(f.name, raw[keys[i]], f.kind, FormatValue(f.kind, raw[keys[i]], datefmt, strptime).error))
    ensures keys[i] in fields && FormatValue(fields[keys[i]].kind, raw[keys[i]], datefmt, strptime).Ok? ==>
              FormatEntries(fields, keys[..i + 1], raw, datefmt, strptime) ==
                Ok(acc.Put(keys[i], FormatValue(fields[keys[i]].kind, raw[keys[i]], datefmt, strptime).value))
  {
    FormatEntriesStep(fields, keys, i, raw, datefmt, strptime, acc);
    var cell := FormatField(fields, keys[i], raw[keys[i]], datefmt, strptime);
    if cell.Err? {
      FormatEntriesErrorPersists(fields, keys, i + 1, raw, datefmt, strptime);
    }
  }

  /** An error in the first keys is the error of the whole row. */
  lemma FormatEntriesErrorPersists(fields: map<string, FieldDef>, keys: seq<string>, n: nat,
                                   raw: map<string, string>, datefmt: string, strptime: DateParser)
    requires forall k :: k in keys ==> k in raw
    requires n <= |keys| && FormatEntries(fields, keys[..n], raw, datefmt, strptime).Err?
    ensures FormatEntries(fields, keys, raw, datefmt, strptime) == FormatEntries(fields, keys[..n], raw, datefmt, strptime)
  {
    PutEachErrorPersists(keys, n, FieldCells(fields, raw, datefmt, strptime));
  }

  /**
   * What format_dict returns: when every key is registered and every value coerces, a new ordered map
   * with the same keys in the same order, each bound to its coerced value ...
   */
  lemma FormatEntriesOk(fields: map<string, FieldDef>, keys: seq<string>, raw: map<string, string>,
                        datefmt: string, strptime: DateParser)
    requires forall k :: k in keys ==> k in raw
    requires Distinct(keys)
    requires forall i :: 0 <= i < |keys| ==> FormatField(fields, keys[i], raw[keys[i]], datefmt, strptime).Ok?
    ensures FormatEntries(fields, keys, raw, datefmt, strptime).Ok?
    ensures var m := FormatEntries(fields, keys, raw, datefmt, strptime).value;
            m.Valid() && m.keys == keys &&
            forall i :: 0 <= i < |keys| ==>
              keys[i] in m.entries && m.entries[keys[i]] == FormatField(fields, keys[i], raw[keys[i]], datefmt, strptime).value
  {
    var cell := FieldCells(fields, raw, datefmt, strptime);
    PutEachKeys(keys, cell);
    forall i | 0 <= i < |keys|
      ensures var m := PutEach(keys, cell).value;
              keys[i] in m.entries && m.entries[keys[i]] == FormatField(fields, keys[i], raw[keys[i]], datefmt, strptime).value
    {
      PutEachBinding(keys, cell, i);
    }
  }

  /**
   * ... and otherwise the error of the first key, in row order, that is unregistered (KeyError)
   * or whose value does not coerce (the ValueError, re-raised with the field's context).
   */
  lemma FormatEntriesFirstError(fields: map<string, FieldDef>, keys: seq<string>, raw: map<string, string>,
                                datefmt: string, strptime: DateParser, n: nat)
    requires forall k :: k in keys ==> k in raw
    requires n < |keys| && FormatField(fields, keys[n], raw[keys[n]], datefmt, strptime).Err?
    requires forall i :: 0 <= i < n ==> FormatField(fields, keys[i], raw[keys[i]], datefmt, strptime).Ok?
    ensures FormatEntries(fields, keys, raw, datefmt, strptime) == FormatField(fields, keys[n], raw[keys[n]], datefmt, strptime).PropagateFailure()
    ensures keys[n] !in fields ==> FormatEntries(fields, keys, raw, datefmt, strptime) == Err(UnknownField(keys[n]))
  {
    PutEachFirstError(keys, FieldCells(fields, raw, datefmt, strptime), n);
  }

  /**
   * `OrderedDict(zip(names, texts))`, the row format_node builds: the first min(#names, #texts)
   * names, in their order, each bound to the text at its position.
   */
  function ZipRow(names: seq<string>, texts: seq<string>): (row: OrderedMap<string>)
    requires Distinct(names)
    ensures var n := if |names| < |texts| then |names| else |texts|;
            row.Valid() && row.keys == names[..n] &&
            forall i :: 0 <= i < n ==> names[i] in row.entries && row.entries[names[i]] == texts[i]
  {
    var pairs := Zip(names, texts);
    var n := if |names| < |texts| then |names| else |texts|;
    assert Firsts(pairs) == names[..n];
    FromPairsDistinct(pairs);
    FromPairs(pairs)
  }

  /**
   * format_node over the registered names and the DATA texts of a row. A result has a key for each
   * name that has a text.
   */
  function FormatRow(fields: map<string, FieldDef>, names: seq<string>, texts: seq<string>,
                     datefmt: string, strptime: DateParser): (r: Result<OrderedMap<Value>, ImportError>)
    requires Distinct(names)
    ensures r.Ok? ==> forall i :: 0 <= i < |names| && i < |texts| ==> names[i] in r.value.entries
  {
    var dic := ZipRow(names, texts);
    assert forall i :: 0 <= i < |names| && i < |texts| ==> dic.keys[i] == names[i];
    FormatEntries(fields, dic.keys, dic.entries, datefmt, strptime)
  }

  /** A row is formatted as format_dict formats the zipped row. */
  lemma FormatRowIsEntries(fields: map<string, FieldDef>, names: seq<string>, texts: seq<string>,
                           datefmt: string, strptime: DateParser)
    requires Distinct(names)
    ensures var dic := ZipRow(names, texts);
            FormatRow(fields, names, texts, datefmt, strptime) == FormatEntries(fields, dic.keys, dic.entries, datefmt, strptime)
  {
  }

  /** An error of a row is the error of a name's cell, at a position that has a text. */
  lemma FormatRowError(fields: map<string, FieldDef>, names: seq<string>, texts: seq<string>,
                       datefmt: string, strptime: DateParser)
    requires Distinct(names)
    ensures var r := FormatRow(fields, names, texts, datefmt, strptime);
            r.Err? ==> exists i :: 0 <= i < |names| && i < |texts| &&
                                   FormatField(fields, names[i], texts[i], datefmt, strptime) == Err(r.error)
  {
    var dic := ZipRow(names, texts);
    var r := FormatEntries(fields, dic.keys, dic.entries, datefmt, strptime);
    assert FormatRow(fields, names, texts, datefmt, strptime) == r;
    if r.Err? {
      FormatEntriesOutcome(fields, dic.keys, dic.entries, datefmt, strptime);
      var i :| 0 <= i < |dic.keys| && FormatField(fields, dic.keys[i], dic.entries[dic.keys[i]], datefmt, strptime) == Err(r.error);
      ZipRowCell(fields, names, texts, datefmt, strptime, i);
    }
  }

  /**
   * A row whose cells all coerce comes out keyed by the first min(#names, #texts) registered names,
   * in declaration order, each bound to the coercion of the text at its position.
   */
  lemma {:induction false} FormatRowOk(fields: map<string, FieldDef>, names: seq<string>, texts: seq<string>,
                                       datefmt: string, strptime: DateParser)
    requires Distinct(names)
    requires forall i :: 0 <= i < |names| && i < |texts| ==> FormatField(fields, names[i], texts[i], datefmt, strptime).Ok?
    ensures var n := if |names| < |texts| then |names| else |texts|;
            var r := FormatRow(fields, names, texts, datefmt, strptime);
            r.Ok? && r.value.Valid() && r.value.keys == names[..n] &&
            forall i :: 0 <= i < n ==> names[i] in r.value.entries &&
                                       r.value.entries[names[i]] == FormatField(fields, names[i], texts[i], datefmt, strptime).value
  {
    var dic := ZipRow(names, texts);
    forall i | 0 <= i < |dic.keys|
      ensures FormatField(fields, dic.keys[i], dic.entries[dic.keys[i]], datefmt, strptime) ==
              FormatField(fields, names[i], texts[i], datefmt, strptime)
    {
      ZipRowCell(fields, names, texts, datefmt, strptime, i);
    }
    FormatEntriesOk(fields, dic.keys, dic.entries, datefmt, strptime);
    assert FormatRow(fields, names, texts, datefmt, strptime) == FormatEntries(fields, dic.keys, dic.entries, datefmt, strptime);
  }

  /** The cell of a key of the zipped row is the cell of the name and text at that key's position. */
  lemma ZipRowCell(fields: map<string, FieldDef>, names: seq<string>, texts: seq<string>,
                   datefmt: string, strptime: DateParser, i: nat)
    requires Distinct(names) && i < |ZipRow(names, texts).keys|
    ensures var dic := ZipRow(names, texts);
            i < |names| && i < |texts| && dic.keys[i] == names[i] && dic.keys[i] in dic.entries &&
            FormatField(fields, dic.keys[i], dic.entries[dic.keys[i]], datefmt, strptime) ==
            FormatField(fields, names[i], texts[i], datefmt, strptime)
  {
  }

  /** One NUMBER field `Qty` and one row whose DATA text is `42`: the row comes out as `{Qty: 42}`. */
  lemma ExampleQuantityRow(datefmt: string, strptime: DateParser)
    ensures FormatRow(map["Qty" := FieldDef("Qty", "NUMBER", 1, true)], ["Qty"], ["42"], datefmt, strptime) ==
            Ok(OrderedMap(["Qty"], map["Qty" := Number(Decimal(42, 0))]))
  {
    var fields := map["Qty" := FieldDef("Qty", "NUMBER", 1, true)];
    var v := Number(Decimal(42, 0));
    assert FormatNumber("42") == Some(Decimal(42, 0)) by {
      assert KeepNumeric("42") == "42";
      ParseAllDigits("42");
      assert DigitsValue("42") == 42 by { assert "42"[..1] == "4"; }
    }
    assert FormatField(fields, "Qty", "42", datefmt, strptime) == Ok(v);
    var dic := ZipRow(["Qty"], ["42"]);
    assert dic.keys == ["Qty"] && dic.entries["Qty"] == "42";
    assert dic.keys[..0] == [];
    assert FormatEntries(fields, dic.keys, dic.entries, datefmt, strptime) == Ok(Empty<Value>().Put("Qty", v));
  }

  /** `import_node(node)`: the row's RECORDID attribute is looked up, so a row without one raises KeyError. */
  function ImportNode(attrs: map<string, string>): (r: Result<(), ImportError>)
    ensures r.Ok? <==> "RECORDID" in attrs
    ensures r.Err? ==> r.error == MissingAttribute("RECORDID")
  {
    if "RECORDID" in attrs then Ok(()) else Err(MissingAttribute("RECORDID"))
  }

  class FMPImporter {
    var fields: OrderedMap<FieldDef>
    const datefmt: string
    const strptime: DateParser

    /** The registry is an ordered map from each field's name to its definition. */
    ghost predicate Valid()
      reads this
    {
      fields.Valid() && forall k :: k in fields.entries ==> fields.entries[k].name == k
    }

    /** `FMPImporter(datefmt)`: an empty registry; a missing or empty format means the default one. */
    constructor (datefmt: Option<string>, strptime: DateParser)
      ensures Valid() && fields.keys == []
      ensures this.datefmt == if datefmt.None? || datefmt.value == "" then DefaultDateFormat else datefmt.value
      ensures this.strptime == strptime
    {
      fields := Empty();
      this.datefmt := if datefmt.None? || datefmt.value == "" then DefaultDateFormat else datefmt.value;
      this.strptime := strptime;
    }

    /** `field_names()`: the registered names in declaration order. */
    function FieldNames(): (names: seq<string>)
      reads this
      requires Valid()
      ensures Distinct(names)
    {
      fields.keys
    }

    /**
     * `add_field(node)`: registers the field described by the attributes. A new name goes at the end of
     * the order; a name already there keeps its place and gets the new definition. On an error nothing changes.
     */
    method AddField(attrs: map<string, string>) returns (r: Result<(), ImportError>)
      requires Valid()
      modifies this
      ensures Valid()
      ensures r.Err? <==> FieldFromAttributes(attrs).Err?
      ensures r.Err? ==> r.error == FieldFromAttributes(attrs).error && fields == old(fields)
      ensures r.Ok? ==> fields == old(fields).Put(attrs["NAME"], FieldFromAttributes(attrs).value)
      ensures r.Ok? && attrs["NAME"] !in old(fields.entries) ==> FieldNames() == old(FieldNames()) + [attrs["NAME"]]
      ensures r.Ok? && attrs["NAME"] in old(fields.entries) ==> FieldNames() == old(FieldNames())
    {
      var f := FieldFromAttributes(attrs);
      if f.Err? {
        return Err(f.error);
      }
      PutProperties(fields, f.value.name, f.value);
      fields := fields.Put(f.value.name, f.value);
      r := Ok(());
    }

    /**
     * `format_dict(dic)`: a new ordered map with every value of the row coerced by its field's kind,
     * built key by key; an unregistered key or a value that does not coerce aborts the row.
     */
    method FormatDict(dic: OrderedMap<string>) returns (r: Result<OrderedMap<Value>, ImportError>)
      requires Valid() && dic.Valid()
      ensures r == FormatEntries(fields.entries, dic.keys, dic.entries, datefmt, strptime)
    {
      var table, keys, raw := fields.entries, dic.keys, dic.entries;
      var acc: OrderedMap<Value> := Empty();
      var i := 0;
      while i < |keys|
        invariant 0 <= i <= |keys|
        invariant FormatEntries(table, keys[..i], raw, datefmt, strptime) == Ok(acc)
      {
        var key := keys[i];
        FormatKeyStep(table, keys, i, raw, datefmt, strptime, acc);
        if key !in table {
          return Err(UnknownField(key));
        }
        var f := table[key];
        var value := FormatValue(f.kind, raw[key], datefmt, strptime);
        if value.Err? {
          return Err(FieldFormat(f.name, raw[key], f.kind, value.error));
        }
        acc := acc.Put(key, value.value);
        i := i + 1;
      }
      assert keys[..i] == keys;
      r := Ok(acc);
    }

    /**
     * `format_node(node)`: the DATA texts of the row's columns zipped against the registered names,
     * then formatted as by format_dict.
     */
    method FormatNode(row: XMLNode) returns (r: Result<OrderedMap<Value>, ImportError>)
      requires Valid()
      ensures r == FormatRow(fields.entries, FieldNames(), DataTexts(row.children), datefmt, strptime)
    {
      var names, texts := FieldNames(), DataTexts(row.children);
      FormatRowIsEntries(fields.entries, names, texts, datefmt, strptime);
      r := FormatDict(ZipRow(names, texts));
    }
  }
}
