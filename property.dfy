/** One content line of a vCard (RFC 6350, section 3.3) and the typed views
    Name and Address that read their fields out of its first row and write
    a row back into it. */
module Properties {
  import opened Strings

  /** Name of the parameter that carries a property's types. */
  const ParamType := "TYPE"

  /** The value of a Property at one moment: what the decoder produces and
      what the encoder consumes. */
  datatype PropData = PropData(
    group: string,
    name: string,
    params: map<string, seq<string>>,
    value: seq<seq<string>>)

  /** Reading an absent key of a Go map gives the nil slice. */
  function Lookup<T>(m: map<string, seq<T>>, k: string): seq<T> {
    if k in m then m[k] else []
  }

  /** Strings joined by ",". */
  function Join(vs: seq<string>): string {
    if vs == [] then ""
    else if |vs| == 1 then vs[0]
    else Join(vs[..|vs| - 1]) + "," + vs[|vs| - 1]
  }

  /** Every sub-value of a two-level value, component after component. */
  function Flatten(v: seq<seq<string>>): seq<string> {
    if v == [] then [] else Flatten(v[..|v| - 1]) + v[|v| - 1]
  }

  /** Total number of sub-values of a two-level value. */
  function Cells(v: seq<seq<string>>): nat {
    if v == [] then 0 else |v[0]| + Cells(v[1..])
  }

  /** Flattening keeps every sub-value: as many as all rows hold together,
      the first row leading. */
  lemma {:induction false} FlattenShape(v: seq<seq<string>>)
    ensures |Flatten(v)| == Cells(v)
    ensures v != [] ==> Flatten(v)[..|v[0]|] == v[0]
  {
    if v != [] {
      FlattenCons(v);
      FlattenShape(v[1..]);
    }
  }

  lemma {:induction false} FlattenCons(v: seq<seq<string>>)
    requires v != []
    ensures Flatten(v) == v[0] + Flatten(v[1..])
  {
    var n := |v| - 1;
    if n > 0 {
      FlattenCons(v[..n]);
      assert v[..n][1..] == v[1..][..n - 1];
      assert v[..n][0] == v[0];
    }
  }

  /** A Property. Fields are updated in place through the accessors below and
      through the Name and Address views. `paramsNil` records that Params is
      a nil map (as `new(Property)` leaves it): reading it gives nothing,
      writing into it panics. */
  class Property {
    var group: string
    var name: string
    var params: map<string, seq<string>>
    var paramsNil: bool
    var value: seq<seq<string>>

    /** `new(Property)`: every field at its zero value. */
    constructor Empty()
      ensures group == "" && name == "" && params == map[] && paramsNil && value == []
      ensures Valid()
    {
      group, name, params, paramsNil, value := "", "", map[], true, [];
    }

    /** A composite literal `&Property{Group: .., Name: .., Params: .., Value: ..}`. */
    constructor (group: string, name: string, params: map<string, seq<string>>, value: seq<seq<string>>)
      ensures Snap() == PropData(group, name, params, value) && !paramsNil
      ensures Valid()
    {
      this.group, this.name, this.params, this.paramsNil, this.value := group, name, params, false, value;
    }

    /** A nil map holds no entries. */
    predicate Valid()
      reads this
    {
      paramsNil ==> params == map[]
    }

    function Snap(): PropData
      reads this
    {
      PropData(group, name, params, value)
    }

    /** The values of the TYPE parameter. */
    function Types(): seq<string>
      reads this
    {
      Lookup(params, ParamType)
    }

    /** GetValueTextList: every sub-value, row after row. */
    method GetValueTextList() returns (tl: seq<string>)
      ensures tl == Flatten(value)
      ensures |tl| == Cells(value)
    {
      tl := [];
      var i := 0;
      while i < |value|
        invariant 0 <= i <= |value|
        invariant tl == Flatten(value[..i])
      {
        var sts := value[i];
        var j := 0;
        while j < |sts|
          invariant 0 <= j <= |sts|
          invariant tl == Flatten(value[..i]) + sts[..j]
        {
          tl := tl + [sts[j]];
          j := j + 1;
        }
        assert value[..i + 1][..i] == value[..i];
        i := i + 1;
      }
      assert value[..i] == value;
      FlattenShape(value);
    }

    /** GetValueFirstText: the first sub-value of the first row, or "". */
    function GetValueFirstText(): (r: string)
      reads this
      ensures |value| > 0 && |value[0]| > 0 ==> |Flatten(value)| > 0 && r == Flatten(value)[0]
      ensures (|value| == 0 || |value[0]| == 0) ==> r == ""
    {
      FlattenShape(value);
      if |value| > 0 && |value[0]| > 0 then
        assert Flatten(value)[..|value[0]|][0] == value[0][0];
        value[0][0]
      else ""
    }

    /** GetFirstParamVal: the first value of a parameter, or "". */
    function GetFirstParamVal(param: string): (r: string)
      reads this
      ensures |Lookup(params, param)| > 0 ==> param in params && r == params[param][0]
      ensures |Lookup(params, param)| == 0 ==> r == ""
    {
      if |Lookup(params, param)| > 0 then params[param][0] else ""
    }

    /** AddParam: appends one value to a parameter, creating it if absent. */
    method AddParam(key: string, val: string)
      requires !paramsNil
      modifies this
      ensures params == old(params)[key := Lookup(old(params), key) + [val]]
      ensures key in params && |params[key]| == |Lookup(old(params), key)| + 1 && params[key][|params[key]| - 1] == val
      ensures forall k :: k != key ==> Lookup(params, k) == Lookup(old(params), k)
      ensures group == old(group) && name == old(name) && value == old(value) && !paramsNil
      ensures Valid()
    {
      params := params[key := Lookup(params, key) + [val]];
    }

    /** SetParam: replaces a parameter's values by the single `val`. */
    method SetParam(key: string, val: string)
      requires !paramsNil
      modifies this
      ensures params == old(params)[key := [val]]
      ensures Lookup(params, key) == [val]
      ensures forall k :: k != key ==> Lookup(params, k) == Lookup(old(params), k)
      ensures group == old(group) && name == old(name) && value == old(value) && !paramsNil
      ensures Valid()
    {
      params := params[key := [val]];
    }

    /** GetParamTypeList: the TYPE values, each lower-cased. */
    method GetParamTypeList() returns (list: seq<string>)
      ensures |list| == |Types()|
      ensures forall i :: 0 <= i < |list| ==> list[i] == ToLower(Types()[i])
    {
      var types := Lookup(params, ParamType);
      list := seq(|types|, _ => "");
      var i := 0;
      while i < |types|
        invariant 0 <= i <= |types| && |list| == |types|
        invariant forall j :: 0 <= j < i ==> list[j] == ToLower(types[j])
      {
        list := list[i := ToLower(types[i])];
        i := i + 1;
      }
    }

    /** IsHasType: some TYPE value equals `t` ignoring case. */
    function IsHasType(t: string): (r: bool)
      reads this
      ensures r <==> exists i :: 0 <= i < |Types()| && EqualFold(t, Types()[i])
    {
      AnyEqualFold(t, Types())
    }
  }

  function AnyEqualFold(t: string, list: seq<string>): (r: bool)
    ensures r <==> exists i :: 0 <= i < |list| && EqualFold(t, list[i])
  {
    if list == [] then false
    else if EqualFold(t, list[0]) then true
    else
      var r := AnyEqualFold(t, list[1..]);
      assert forall i :: 1 <= i < |list| ==> list[i] == list[1..][i - 1];
      r
  }

  /** IsHasType agrees with the lower-cased list GetParamTypeList returns. */
  lemma HasTypeIffInLowerList(p: Property, t: string)
    ensures p.IsHasType(t) <==> exists i :: 0 <= i < |p.Types()| && ToLower(p.Types()[i]) == ToLower(t)
  {
    forall i | 0 <= i < |p.Types()|
      ensures EqualFold(t, p.Types()[i]) <==> ToLower(p.Types()[i]) == ToLower(t)
    {
      EqualFoldIsLowerEquality(t, p.Types()[i]);
    }
  }

  /** The five fields of a structured name, in value order. */
  datatype NameFields = NameFields(
    familyName: string, givenName: string, additionalName: string,
    honorificPrefix: string, honorificSuffix: string)

  function NameRow(f: NameFields): seq<string> {
    [f.familyName, f.givenName, f.additionalName, f.honorificPrefix, f.honorificSuffix]
  }

  /** What newName reads: the first five entries of the first row. */
  function NameOf(v: seq<seq<string>>): (f: NameFields)
    requires |v| > 0 && |v[0]| >= 5
    ensures NameRow(f) == v[0][..5]
  {
    NameFields(v[0][0], v[0][1], v[0][2], v[0][3], v[0][4])
  }

  /** Component `i` of a structured value laid out one field per
      component: its first sub-value, or "" when the component is missing
      or empty. */
  function ComponentAt(v: seq<seq<string>>, i: nat): string {
    if i < |v| && |v[i]| > 0 then v[i][0] else ""
  }

  /** The five fields of a structured name, one per component. */
  function NameOfComponents(v: seq<seq<string>>): NameFields {
    NameFields(ComponentAt(v, 0), ComponentAt(v, 1), ComponentAt(v, 2), ComponentAt(v, 3), ComponentAt(v, 4))
  }

  /** A field as a component of its own: the field as its one sub-value, or
      no sub-value at all when it is empty. */
  function Component(field: string): seq<string> {
    if field == "" then [] else [field]
  }

  /** A structured name laid out one field per component. */
  function NameComponents(f: NameFields): seq<seq<string>> {
    [Component(f.familyName), Component(f.givenName), Component(f.additionalName),
     Component(f.honorificPrefix), Component(f.honorificSuffix)]
  }

  /** Reading one field per component gives back a name written one field
      per component. */
  lemma NameComponentsRoundTrip(f: NameFields)
    ensures NameOfComponents(NameComponents(f)) == f
  {
  }

  /** The one-row layout `property()` writes is not that layout: read one
      field per component, it keeps only the family name. */
  lemma NameRowByComponent(f: NameFields)
    ensures NameOfComponents([NameRow(f)]) == NameFields(f.familyName, "", "", "", "")
  {
  }

  /** A name written back into an empty Property reads back unchanged. */
  lemma NameRoundTrip(f: NameFields)
    ensures NameOf([NameRow(f)]) == f
  {
  }

  /** A row appended behind an existing first row is invisible to newName. */
  lemma NameAppendInvisible(v: seq<seq<string>>, f: NameFields)
    requires |v| > 0 && |v[0]| >= 5
    ensures NameOf(v + [NameRow(f)]) == NameOf(v)
  {
    assert (v + [NameRow(f)])[0] == v[0];
  }

  /** The seven fields of a delivery address, in value order. */
  datatype AddressFields = AddressFields(
    postOfficeBox: string, extendedAddress: string, streetAddress: string,
    locality: string, region: string, postalCode: string, country: string)

  function AddressRow(f: AddressFields): seq<string> {
    [f.postOfficeBox, f.extendedAddress, f.streetAddress, f.locality, f.region, f.postalCode, f.country]
  }

  /** What newAddress reads: the first seven entries of the first row. */
  function AddressOf(v: seq<seq<string>>): (f: AddressFields)
    requires |v| > 0 && |v[0]| >= 7
    ensures AddressRow(f) == v[0][..7]
  {
    AddressFields(v[0][0], v[0][1], v[0][2], v[0][3], v[0][4], v[0][5], v[0][6])
  }

  /** The seven fields of a delivery address, one per component. */
  function AddressOfComponents(v: seq<seq<string>>): AddressFields {
    AddressFields(ComponentAt(v, 0), ComponentAt(v, 1), ComponentAt(v, 2), ComponentAt(v, 3),
                  ComponentAt(v, 4), ComponentAt(v, 5), ComponentAt(v, 6))
  }

  /** A delivery address laid out one field per component. */
  function AddressComponents(f: AddressFields): seq<seq<string>> {
    [Component(f.postOfficeBox), Component(f.extendedAddress), Component(f.streetAddress),
     Component(f.locality), Component(f.region), Component(f.postalCode), Component(f.country)]
  }

  lemma AddressComponentsRoundTrip(f: AddressFields)
    ensures AddressOfComponents(AddressComponents(f)) == f
  {
  }

  lemma AddressRoundTrip(f: AddressFields)
    ensures AddressOf([AddressRow(f)]) == f
  {
  }

  lemma AddressAppendInvisible(v: seq<seq<string>>, f: AddressFields)
    requires |v| > 0 && |v[0]| >= 7
    ensures AddressOf(v + [AddressRow(f)]) == AddressOf(v)
  {
    assert (v + [AddressRow(f)])[0] == v[0];
  }

  /** The Name view: an optional backing Property plus five fields. */
  class Name {
    var prop: Property?
    var fields: NameFields

    constructor (prop: Property?, fields: NameFields)
      ensures this.prop == prop && this.fields == fields
    {
      this.prop, this.fields := prop, fields;
    }

    /** `property()`: writes the five fields back as a row of the backing
        Property, creating the Property when there is none. */
    method WriteBack() returns (p: Property)
      requires prop != null ==> prop.Valid()
      modifies this, prop
      ensures p == prop && fields == old(fields) && p.Valid()
      ensures old(prop) == null ==> fresh(p) && p.Snap() == PropData("", "", map[], [NameRow(fields)]) && p.paramsNil
      ensures old(prop) != null ==> p == old(prop) && p.value == old(prop.value) + [NameRow(fields)]
      ensures old(prop) != null ==> p.group == old(prop.group) && p.name == old(prop.name) && p.params == old(prop.params) && p.paramsNil == old(prop.paramsNil)
    {
      if prop == null {
        var q := new Property.Empty();
        q.value := [NameRow(fields)];
        prop := q;
      } else {
        prop.value := prop.value + [NameRow(fields)];
      }
      p := prop;
    }

    /** `property()` writing one field per component, the layout
        NewNameByComponent reads: the value becomes the name's components. */
    method WriteBackByComponent() returns (p: Property)
      requires prop != null ==> prop.Valid()
      modifies this, prop
      ensures p == prop && fields == old(fields) && p.Valid()
      ensures p.value == NameComponents(fields) && NameOfComponents(p.value) == fields
      ensures old(prop) == null ==> fresh(p) && p.Snap() == PropData("", "", map[], NameComponents(fields)) && p.paramsNil
      ensures old(prop) != null ==> p == old(prop)
      ensures old(prop) != null ==> p.group == old(prop.group) && p.name == old(prop.name) && p.params == old(prop.params) && p.paramsNil == old(prop.paramsNil)
    {
      if prop == null {
        prop := new Property.Empty();
      }
      prop.value := NameComponents(fields);
      p := prop;
      NameComponentsRoundTrip(fields);
    }
  }

  /** newName: a Name view over `p`, reading the first row of its value. */
  method NewName(p: Property) returns (n: Name)
    requires |p.value| > 0 && |p.value[0]| >= 5
    ensures fresh(n) && n.prop == p && n.fields == NameOf(p.value)
  {
    var vals := p.value[0];
    n := new Name(p, NameFields(vals[0], vals[1], vals[2], vals[3], vals[4]));
  }

  /** newName reading one field per component, the layout the decoder
      gives a structured value; it is defined on every value. */
  method NewNameByComponent(p: Property) returns (n: Name)
    ensures fresh(n) && n.prop == p && n.fields == NameOfComponents(p.value)
  {
    var v := p.value;
    n := new Name(p, NameFields(ComponentAt(v, 0), ComponentAt(v, 1), ComponentAt(v, 2), ComponentAt(v, 3), ComponentAt(v, 4)));
  }

  /** The Address view: an optional backing Property plus seven fields. */
  class Address {
    var prop: Property?
    var fields: AddressFields

    constructor (prop: Property?, fields: AddressFields)
      ensures this.prop == prop && this.fields == fields
    {
      this.prop, this.fields := prop, fields;
    }

    /** `property()`: creates the backing Property if absent, then always
        appends the seven fields as a new row. */
    method WriteBack() returns (p: Property)
      requires prop != null ==> prop.Valid()
      modifies this, prop
      ensures p == prop && fields == old(fields) && p.Valid()
      ensures old(prop) == null ==> fresh(p) && p.Snap() == PropData("", "", map[], [AddressRow(fields)]) && p.paramsNil
      ensures old(prop) != null ==> p == old(prop) && p.value == old(prop.value) + [AddressRow(fields)]
      ensures old(prop) != null ==> p.group == old(prop.group) && p.name == old(prop.name) && p.params == old(prop.params) && p.paramsNil == old(prop.paramsNil)
    {
      if prop == null {
        prop := new Property.Empty();
      }
      prop.value := prop.value + [AddressRow(fields)];
      p := prop;
    }

    /** `property()` writing one field per component, the layout
        NewAddressByComponent reads: the value becomes the address's
        components. */
    method WriteBackByComponent() returns (p: Property)
      requires prop != null ==> prop.Valid()
      modifies this, prop
      ensures p == prop && fields == old(fields) && p.Valid()
      ensures p.value == AddressComponents(fields) && AddressOfComponents(p.value) == fields
      ensures old(prop) == null ==> fresh(p) && p.Snap() == PropData("", "", map[], AddressComponents(fields)) && p.paramsNil
      ensures old(prop) != null ==> p == old(prop)
      ensures old(prop) != null ==> p.group == old(prop.group) && p.name == old(prop.name) && p.params == old(prop.params) && p.paramsNil == old(prop.paramsNil)
    {
      if prop == null {
        prop := new Property.Empty();
      }
      prop.value := AddressComponents(fields);
      p := prop;
      AddressComponentsRoundTrip(fields);
    }
  }

  /** newAddress: an Address view over `p`, reading the first row of its value. */
  method NewAddress(p: Property) returns (a: Address)
    requires |p.value| > 0 && |p.value[0]| >= 7
    ensures fresh(a) && a.prop == p && a.fields == AddressOf(p.value)
  {
    var vals := p.value[0];
    a := new Address(p, AddressFields(vals[0], vals[1], vals[2], vals[3], vals[4], vals[5], vals[6]));
  }

  /** newAddress reading one field per component, the layout the decoder
      gives a structured value; it is defined on every value. */
  method NewAddressByComponent(p: Property) returns (a: Address)
    ensures fresh(a) && a.prop == p && a.fields == AddressOfComponents(p.value)
  {
    var v := p.value;
    a := new Address(p, AddressFields(ComponentAt(v, 0), ComponentAt(v, 1), ComponentAt(v, 2), ComponentAt(v, 3),
                                      ComponentAt(v, 4), ComponentAt(v, 5), ComponentAt(v, 6)));
  }
}
