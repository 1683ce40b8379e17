/**
 * `AssignValues` (brisk.go:125-140): copies request parameters onto the fields of a
 * widget's parameter object. Go reflection is replaced by an explicit map from field
 * name to a typed field value.
 */
module Binding {
  import opened Wrappers
  import opened MapOrder
  import Strconv
  import Strings

  /** A struct field of the parameter object, told apart by its declared type. */
  datatype Field =
    | StringField(s: string)
      /** declared `string` */
    | IntField(n: int)
      /** declared `int` */
    | OtherField(typeName: string)
      /** any other type, including named types whose kind is string or int */

  /** The fields of a parameter struct, by name. */
  type Fields = map<string, Field>

  /**
   * The value `Prepare` and `Render` receive: nil when the widget has no
   * `NewParamsObject`, otherwise a pointer to a struct with the given fields.
   */
  datatype ParamsObject = NilObject | StructPtr(fields: Fields)

  predicate SameKind(a: Field, b: Field) {
    (a.StringField? <==> b.StringField?) && (a.IntField? <==> b.IntField?)
  }

  /** Only an exported field can be set through reflection. */
  predicate Exported(name: string) {
    |name| > 0 && Strings.IsUpper(name[0])
  }

  /**
   * The field's value after assigning the request value `v` to it: a string field takes
   * `v`, an int field takes the parsed integer when parsing succeeds, any other field
   * is left alone. A field never changes its type.
   */
  function SetFromString(f: Field, v: string): (r: Field)
    ensures SameKind(r, f)
    ensures r.OtherField? ==> r == f
    ensures r.IntField? && r != f ==> Strconv.Atoi(v) == Some(r.n)
    ensures f.IntField? && Strconv.Atoi(v).Some? ==> r == IntField(Strconv.Atoi(v).value)
    ensures f.IntField? && Strconv.Atoi(v).None? ==> r == f
    ensures r.StringField? ==> r.s == v
  {
    match f
    case StringField(_) => StringField(v)
    case IntField(_) => (match Strconv.Atoi(v) case Some(n) => IntField(n) case None => f)
    case OtherField(_) => f
  }

  /**
   * One iteration of the loop: look up the kind of field `name` and set it. A missing
   * or unexported field leaves the struct as it is; no other field ever changes.
   */
  function AssignField(obj: Fields, name: string, v: string): (r: Fields)
    ensures r.Keys == obj.Keys
    ensures forall g :: g in obj && g != name ==> r[g] == obj[g]
    ensures name in obj && Exported(name) ==> r[name] == SetFromString(obj[name], v)
    ensures name !in obj || !Exported(name) ==> r == obj
  {
    if name in obj && Exported(name) then obj[name := SetFromString(obj[name], v)] else obj
  }

  /** The loop of `AssignValues` over the keys in the order `keys` visits them. */
  function AssignKeys(vals: map<string, string>, keys: seq<string>, obj: Fields): Fields
    requires forall i :: 0 <= i < |keys| ==> keys[i] in vals
    decreases |keys|
  {
    if |keys| == 0 then obj
    else AssignKeys(vals, keys[1..], AssignField(obj, Strings.Title(keys[0]), vals[keys[0]]))
  }

  /**
   * `AssignValues(vals, obj)` when the runtime visits the keys of `vals` in the order
   * `order`. Binding never fails: it never adds or removes a field and never changes
   * the type of one.
   */
  function AssignValues(vals: map<string, string>, order: seq<string>, obj: Fields): (r: Fields)
    requires IsEnumeration(order, vals.Keys)
    ensures r.Keys == obj.Keys
    ensures forall f :: f in obj ==> SameKind(r[f], obj[f])
  {
    AssignValuesKeepsShape(vals, order, obj);
    AssignKeys(vals, order, obj)
  }

  /** The values of the keys in `keys` that capitalise to `field`, in visiting order. */
  function ValuesFor(vals: map<string, string>, keys: seq<string>, field: string): seq<string>
    requires forall i :: 0 <= i < |keys| ==> keys[i] in vals
    decreases |keys|
  {
    if |keys| == 0 then []
    else (if Strings.Title(keys[0]) == field then [vals[keys[0]]] else []) + ValuesFor(vals, keys[1..], field)
  }

  /** A field after the values `vs` have been assigned to it one after the other. */
  function FieldAfter(f: Field, vs: seq<string>): Field
    decreases |vs|
  {
    if |vs| == 0 then f else FieldAfter(SetFromString(f, vs[0]), vs[1..])
  }

  /**
   * Each field ends up as if only the keys that capitalise to its name had been
   * assigned to it, in visiting order; the set of fields never changes.
   */
  lemma {:induction false} AssignKeysFieldwise(vals: map<string, string>, keys: seq<string>, obj: Fields)
    requires forall i :: 0 <= i < |keys| ==> keys[i] in vals
    ensures AssignKeys(vals, keys, obj).Keys == obj.Keys
    ensures forall f :: f in obj ==>
      AssignKeys(vals, keys, obj)[f] ==
        (if Exported(f) then FieldAfter(obj[f], ValuesFor(vals, keys, f)) else obj[f])
    decreases |keys|
  {
    if |keys| > 0 {
      var name := Strings.Title(keys[0]);
      var obj1 := AssignField(obj, name, vals[keys[0]]);
      AssignKeysFieldwise(vals, keys[1..], obj1);
      forall f | f in obj
        ensures AssignKeys(vals, keys, obj)[f] ==
          (if Exported(f) then FieldAfter(obj[f], ValuesFor(vals, keys, f)) else obj[f])
      {
        if f == name && Exported(f) {
          assert ValuesFor(vals, keys, f) == [vals[keys[0]]] + ValuesFor(vals, keys[1..], f);
        } else {
          assert obj1[f] == obj[f];
          if Exported(f) {
            assert ValuesFor(vals, keys, f) == ValuesFor(vals, keys[1..], f);
          }
        }
      }
    }
  }

  lemma {:induction false} FieldAfterKeepsKind(f: Field, vs: seq<string>)
    ensures SameKind(FieldAfter(f, vs), f)
    decreases |vs|
  {
    if |vs| > 0 {
      FieldAfterKeepsKind(SetFromString(f, vs[0]), vs[1..]);
    }
  }

  lemma AssignValuesKeepsShape(vals: map<string, string>, order: seq<string>, obj: Fields)
    requires forall i :: 0 <= i < |order| ==> order[i] in vals
    ensures AssignKeys(vals, order, obj).Keys == obj.Keys
    ensures forall f :: f in obj ==> SameKind(AssignKeys(vals, order, obj)[f], obj[f])
  {
    AssignKeysFieldwise(vals, order, obj);
    forall f | f in obj
      ensures SameKind(AssignKeys(vals, order, obj)[f], obj[f])
    {
      FieldAfterKeepsKind(obj[f], ValuesFor(vals, order, f));
    }
  }

  lemma {:induction false} ValuesForNone(vals: map<string, string>, keys: seq<string>, field: string)
    requires forall i :: 0 <= i < |keys| ==> keys[i] in vals
    requires forall i :: 0 <= i < |keys| ==> Strings.Title(keys[i]) != field
    ensures ValuesFor(vals, keys, field) == []
    decreases |keys|
  {
    if |keys| > 0 {
      ValuesForNone(vals, keys[1..], field);
    }
  }

  lemma {:induction false} ValuesForUnique(vals: map<string, string>, keys: seq<string>, k: string)
    requires forall i :: 0 <= i < |keys| ==> keys[i] in vals
    requires NoDuplicates(keys)
    requires forall i :: 0 <= i < |keys| && Strings.Title(keys[i]) == Strings.Title(k) ==> keys[i] == k
    ensures ValuesFor(vals, keys, Strings.Title(k)) == if k in keys then [vals[k]] else []
    decreases |keys|
  {
    if |keys| > 0 {
      ValuesForUnique(vals, keys[1..], k);
      if keys[0] == k {
        assert k !in keys[1..] by {
          forall j | 0 <= j < |keys[1..]| ensures keys[1..][j] != k {
            assert keys[1..][j] == keys[j + 1];
          }
        }
      } else {
        assert k in keys <==> k in keys[1..];
      }
    }
  }

  /**
   * When `k` is the only request key that capitalises to an exported field name, the
   * field is bound from `k` alone: a string field becomes the value, an int field
   * becomes the parsed integer if the value parses and stays as it was otherwise, any
   * other field stays as it was.
   */
  lemma AssignValuesSingleKey(vals: map<string, string>, order: seq<string>, obj: Fields, k: string)
    requires IsEnumeration(order, vals.Keys)
    requires k in vals
    requires Strings.Title(k) in obj && Exported(Strings.Title(k))
    requires forall k' :: k' in vals && Strings.Title(k') == Strings.Title(k) ==> k' == k
    ensures var before, after := obj[Strings.Title(k)], AssignValues(vals, order, obj)[Strings.Title(k)];
      && (before.StringField? ==> after == StringField(vals[k]))
      && (before.IntField? && Strconv.Atoi(vals[k]).Some? ==> after == IntField(Strconv.Atoi(vals[k]).value))
      && (before.IntField? && Strconv.Atoi(vals[k]).None? ==> after == before)
      && (before.OtherField? ==> after == before)
  {
    AssignKeysFieldwise(vals, order, obj);
    ValuesForUnique(vals, order, k);
    var f := Strings.Title(k);
    assert ValuesFor(vals, order, f) == [vals[k]];
    assert FieldAfter(obj[f], [vals[k]]) == SetFromString(obj[f], vals[k]);
  }

  /** A field that no request key capitalises to keeps its value. */
  lemma AssignValuesUntouched(vals: map<string, string>, order: seq<string>, obj: Fields, f: string)
    requires IsEnumeration(order, vals.Keys)
    requires f in obj
    requires forall k :: k in vals ==> Strings.Title(k) != f
    ensures AssignValues(vals, order, obj)[f] == obj[f]
  {
    AssignKeysFieldwise(vals, order, obj);
    ValuesForNone(vals, order, f);
  }

  /**
   * When no two request keys capitalise to the same name, the visiting order the
   * runtime picks does not affect the bound object.
   */
  lemma AssignValuesOrderIrrelevant(vals: map<string, string>, order1: seq<string>, order2: seq<string>, obj: Fields)
    requires IsEnumeration(order1, vals.Keys) && IsEnumeration(order2, vals.Keys)
    requires forall k1, k2 :: k1 in vals && k2 in vals && Strings.Title(k1) == Strings.Title(k2) ==> k1 == k2
    ensures AssignValues(vals, order1, obj) == AssignValues(vals, order2, obj)
  {
    AssignKeysFieldwise(vals, order1, obj);
    AssignKeysFieldwise(vals, order2, obj);
    var r1, r2 := AssignValues(vals, order1, obj), AssignValues(vals, order2, obj);
    forall f | f in obj
      ensures r1[f] == r2[f]
    {
      if k :| k in vals && Strings.Title(k) == f {
        ValuesForUnique(vals, order1, k);
        ValuesForUnique(vals, order2, k);
      } else {
        ValuesForNone(vals, order1, f);
        ValuesForNone(vals, order2, f);
      }
    }
  }

  /**
   * Request parameters `page=3&query=cats` bind an int field `Page` to 3 and a string
   * field `Query` to "cats".
   */
  lemma BindPageAndQuery(order: seq<string>)
    requires IsEnumeration(order, {"page", "query"})
    ensures AssignValues(map["page" := "3", "query" := "cats"], order,
                         map["Page" := IntField(0), "Query" := StringField("")])
         == map["Page" := IntField(3), "Query" := StringField("cats")]
  {
    var obj := map["Page" := IntField(0), "Query" := StringField("")];
    var vals := map["page" := "3", "query" := "cats"];
    Strings.TitlePage();
    Strings.TitleQuery();
    assert Strconv.Atoi("3") == Some(3);
    assert vals.Keys == {"page", "query"};
    AssignValuesSingleKey(vals, order, obj, "page");
    AssignValuesSingleKey(vals, order, obj, "query");
    var r := AssignValues(vals, order, obj);
    assert r == map["Page" := IntField(3), "Query" := StringField("cats")];
  }

  /** A request parameter `page=abc` leaves the int field `Page` at its zero value. */
  lemma BindUnparsablePage(order: seq<string>)
    requires IsEnumeration(order, {"page"})
    ensures var obj := map["Page" := IntField(0), "Query" := StringField("")];
      AssignValues(map["page" := "abc"], order, obj) == obj
  {
    var obj := map["Page" := IntField(0), "Query" := StringField("")];
    var vals := map["page" := "abc"];
    Strings.TitlePage();
    assert Strconv.Atoi("abc") == None by {
      assert !Strconv.IsDigit("abc"[0]);
    }
    assert vals.Keys == {"page"};
    AssignValuesSingleKey(vals, order, obj, "page");
    AssignValuesUntouched(vals, order, obj, "Query");
    assert AssignValues(vals, order, obj) == obj;
  }
}
