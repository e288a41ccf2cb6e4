/**
 * `getNestedValuesString`: the values of a JSON object, nested ones included,
 * rendered and joined into one string (used to build validation messages).
 */
module JsonValues {
  import Text

  /** One key of an object and its value. */
  datatype Member = Member(key: string, value: Json)

  /** A JSON value; an object's members are kept in key iteration order. */
  datatype Json =
    | Str(s: string)
    | Num(n: int)
    | Bool(b: bool)
    | Null
    | Arr(items: seq<Json>)
    | Obj(members: seq<Member>)
  {
    /** `typeof v === "object"`, which holds for `null` and arrays too. */
    predicate IsObject()
    {
      Null? || Arr? || Obj?
    }
  }

  function Size(v: Json): nat
  {
    match v
    case Arr(items) => 1 + SizesOf(items)
    case Obj(members) => 1 + MemberSizes(members)
    case _ => 1
  }

  function SizesOf(items: seq<Json>): nat
  {
    if items == [] then 0 else Size(items[0]) + SizesOf(items[1..])
  }

  function MemberSizes(members: seq<Member>): nat
  {
    if members == [] then 0 else Size(members[0].value) + MemberSizes(members[1..])
  }

  lemma {:induction false} ItemSmaller(items: seq<Json>, i: nat)
    requires i < |items|
    ensures Size(items[i]) <= SizesOf(items)
    decreases |items|
  {
    if i > 0 {
      ItemSmaller(items[1..], i - 1);
    }
  }

  lemma {:induction false} MemberSmaller(members: seq<Member>, i: nat)
    requires i < |members|
    ensures Size(members[i].value) <= MemberSizes(members)
    decreases |members|
  {
    if i > 0 {
      MemberSmaller(members[1..], i - 1);
    }
  }

  /** What `for (const key in v)` visits, as the values `v[key]`. */
  function Entries(v: Json): (r: seq<Json>)
    ensures v.Arr? ==> r == v.items
    ensures v.Obj? ==> |r| == |v.members| && forall i :: 0 <= i < |r| ==> r[i] == v.members[i].value
    ensures v.Str? ==> |r| == |v.s| && forall i :: 0 <= i < |r| ==> r[i] == Str([v.s[i]])
    ensures !v.Arr? && !v.Obj? && !v.Str? ==> r == []
    ensures forall i :: 0 <= i < |r| && r[i].IsObject() ==> Size(r[i]) < Size(v)
  {
    match v
    case Arr(items) =>
      forall i | 0 <= i < |items| ensures Size(items[i]) < Size(v) { ItemSmaller(items, i); }
      items
    case Obj(members) =>
      forall i | 0 <= i < |members| ensures Size(members[i].value) < Size(v) { MemberSmaller(members, i); }
      seq(|members|, i requires 0 <= i < |members| => members[i].value)
    case Str(s) => seq(|s|, i requires 0 <= i < |s| => Str([s[i]]))
    case _ => []
  }

  /** How `join` renders a value that is not an object. */
  function Render(v: Json): string
    requires !v.IsObject()
  {
    match v
    case Str(s) => s
    case Num(n) => Text.IntToString(n)
    case Bool(b) => if b then "true" else "false"
  }

  /**
   * The flattened string: every entry contributes one element, its rendering
   * or, for an object, its own flattened string with `nested` as delimiter;
   * the elements are joined by `delimiter`.
   */
  function Flatten(v: Json, delimiter: string, nested: string): string
    decreases Size(v), 1
  {
    Text.Join(Elements(v, nested), delimiter)
  }

  function Elements(v: Json, nested: string): (r: seq<string>)
    ensures |r| == |Entries(v)|
    decreases Size(v), 0
  {
    var entries := Entries(v);
    seq(|entries|, i requires 0 <= i < |entries| =>
      if entries[i].IsObject() then Flatten(entries[i], nested, nested) else Render(entries[i]))
  }

  // ---------------------------------------------------------------------------
  // the two implementations
  // ---------------------------------------------------------------------------

  /** `getNestedValuesString(obj, delimiter)`; nested objects are joined with the default `", "`. */
  method GetNestedValuesString(obj: Json, delimiter: string) returns (s: string)
    ensures s == Flatten(obj, delimiter, ", ")
    decreases Size(obj)
  {
    var entries := Entries(obj);
    var values: seq<string> := [];
    for i := 0 to |entries|
      invariant values == Elements(obj, ", ")[..i]
    {
      if !entries[i].IsObject() {
        values := values + [Render(entries[i])];
      } else {
        var inner := GetNestedValuesString(entries[i], ", ");
        values := values + [inner];
      }
    }
    assert values == Elements(obj, ", ");
    s := Text.Join(values, delimiter);
  }

  /** The older `getNestedValuesString(obj)`: every level joined with `join()`'s `,`. */
  method LegacyGetNestedValuesString(obj: Json) returns (s: string)
    ensures s == Flatten(obj, ",", ",")
    decreases Size(obj)
  {
    var entries := Entries(obj);
    var values: seq<string> := [];
    for i := 0 to |entries|
      invariant values == Elements(obj, ",")[..i]
    {
      if !entries[i].IsObject() {
        values := values + [Render(entries[i])];
      } else {
        var inner := LegacyGetNestedValuesString(entries[i]);
        values := values + [inner];
      }
    }
    assert values == Elements(obj, ",");
    s := Text.Join(values, ",");
  }

  // ---------------------------------------------------------------------------
  // properties
  // ---------------------------------------------------------------------------

  /** Each value of an object is one element; its rendering when it is not itself an object. */
  lemma OneElementPerKey(members: seq<Member>, delimiter: string, nested: string)
    ensures |Elements(Obj(members), nested)| == |members|
    ensures forall i :: 0 <= i < |members| && !members[i].value.IsObject() ==>
      Elements(Obj(members), nested)[i] == Render(members[i].value)
    ensures forall i :: 0 <= i < |members| && members[i].value.IsObject() ==>
      Elements(Obj(members), nested)[i] == Flatten(members[i].value, nested, nested)
  {
  }

  /** An empty object, an empty array and `null` give the empty string. */
  lemma EmptyGivesEmpty(delimiter: string, nested: string)
    ensures Flatten(Obj([]), delimiter, nested) == ""
    ensures Flatten(Arr([]), delimiter, nested) == ""
    ensures Flatten(Null, delimiter, nested) == ""
  {
  }

  /** An empty nested object still contributes an (empty) element. */
  lemma EmptyNestedCounts()
    ensures Flatten(Obj([Member("a", Num(1)), Member("b", Obj([])), Member("c", Num(2))]), ", ", ", ") == "1, , 2"
  {
    var v := Obj([Member("a", Num(1)), Member("b", Obj([])), Member("c", Num(2))]);
    assert Text.IntToString(1) == "1" && Text.IntToString(2) == "2";
    assert Flatten(Obj([]), ", ", ", ") == "";
    assert Elements(v, ", ") == ["1", "", "2"];
    Text.JoinCons("1", ["", "2"], ", ");
    Text.JoinCons("", ["2"], ", ");
  }

  /**
   * The caller's delimiter is not passed down: `{a: {b: 1, c: 2}}` with
   * delimiter `,` gives `1, 2` in the current version and `1,2` in the older.
   */
  lemma DelimiterNotPassedDown()
    ensures Flatten(Obj([Member("a", Obj([Member("b", Num(1)), Member("c", Num(2))]))]), ",", ", ") == "1, 2"
    ensures Flatten(Obj([Member("a", Obj([Member("b", Num(1)), Member("c", Num(2))]))]), ",", ",") == "1,2"
  {
    var inner := Obj([Member("b", Num(1)), Member("c", Num(2))]);
    assert Text.IntToString(1) == "1" && Text.IntToString(2) == "2";
    assert Elements(inner, ", ") == ["1", "2"];
    Text.JoinCons("1", ["2"], ", ");
    Text.JoinCons("1", ["2"], ",");
    assert Elements(Obj([Member("a", inner)]), ", ") == [Flatten(inner, ", ", ", ")];
    assert Elements(Obj([Member("a", inner)]), ",") == [Flatten(inner, ",", ",")];
  }

  /** On an object without nested objects the two versions differ only in the delimiter. */
  lemma FlatVersionsAgree(members: seq<Member>)
    requires forall i :: 0 <= i < |members| ==> !members[i].value.IsObject()
    ensures Flatten(Obj(members), ",", ", ") == Flatten(Obj(members), ",", ",")
  {
    assert Elements(Obj(members), ", ") == Elements(Obj(members), ",");
  }

  /**
   * The older version's string splits back into the rendered values when the
   * object is flat, non-empty and no value contains a comma.
   */
  lemma LegacySplitsBack(members: seq<Member>)
    requires |members| >= 1
    requires forall i :: 0 <= i < |members| ==> !members[i].value.IsObject() && ',' !in Render(members[i].value)
    ensures Text.Split(Flatten(Obj(members), ",", ","), ',') ==
      seq(|members|, i requires 0 <= i < |members| => Render(members[i].value))
  {
    var elements := Elements(Obj(members), ",");
    assert elements == seq(|members|, i requires 0 <= i < |members| => Render(members[i].value));
    Text.SplitJoin(elements, ',');
  }
}
