/** What newName and newAddress make of a structured value as the decoder
    reads it. The decoder gives each ';'-separated component of a value a
    component of its own, while newName and newAddress read every field
    from the first component. */
module Structured {
  import opened Strings
  import opened Properties
  import opened Scan
  import opened Encoding
  import opened RoundTrip

  /** A field the decoder reads back as it is: empty, or a Piece. */
  predicate Field(s: string) {
    s == "" || Piece(s)
  }

  predicate NameFieldsRead(f: NameFields) {
    Field(f.familyName) && Field(f.givenName) && Field(f.additionalName)
    && Field(f.honorificPrefix) && Field(f.honorificSuffix)
  }

  predicate AddressFieldsRead(f: AddressFields) {
    Field(f.postOfficeBox) && Field(f.extendedAddress) && Field(f.streetAddress)
    && Field(f.locality) && Field(f.region) && Field(f.postalCode) && Field(f.country)
  }

  /** A content line `NAME:` with a value of components `rows`, ended by
      CRLF, is read by readProperty as that name, no group, no parameters
      and those components, reading stopping after the line feed. */
  lemma StructuredLine(name: string, rows: seq<seq<string>>, x: string)
    requires Word(name) && rows != [] && Pieces(rows)
    requires x == [] || !Blank(x[0])
    ensures ReadProp(name + ":" + JoinRows(rows) + "\r\n" + x) == PropRead(PropData("", name, map[], rows), |x|)
  {
    var d := PropData("", name, map[], []);
    var y := JoinRows(rows) + "\r\n" + x;
    assert name + ":" + JoinRows(rows) + "\r\n" + x == Header(d, []) + y by {
      assert Header(d, []) == name + ":";
      Assoc(name + ":", JoinRows(rows), "\r\n");
      Assoc(name + ":", JoinRows(rows) + "\r\n", x);
    }
    HeaderRead(d, [], y);
    SplitsValues(rows, x);
    assert ReadBackParams(map[]) == map[];
  }

  lemma ComponentPieces(s: string)
    requires Field(s)
    ensures forall j :: 0 <= j < |Component(s)| ==> Piece(Component(s)[j])
  {
  }

  /** As written, newName cannot read the name a structured N line
      decodes to: `N:Doe;J.;;;` CRLF is read as five components holding
      at most one sub-value each, so the first falls short of the five
      sub-values NewName requires (Go's newName panics indexing it). */
  lemma NameLineMissesNewName()
    ensures var v := ReadProp("N:Doe;J.;;;\r\n").prop.value;
      v == [["Doe"], ["J."], [], [], []] && |v[0]| < 5
  {
    var f := NameFields("Doe", "J.", "", "", "");
    NameLineDecodes(f, "");
    NameText();
  }

  lemma NameText()
    ensures "N:" + JoinRows(NameComponents(NameFields("Doe", "J.", "", "", ""))) + "\r\n" + "" == "N:Doe;J.;;;\r\n"
    ensures NameComponents(NameFields("Doe", "J.", "", "", "")) == [["Doe"], ["J."], [], [], []]
  {
    var rows: seq<seq<string>> := [["Doe"], ["J."], [], [], []];
    assert JoinRows(rows[3..]) == ";";
    assert JoinRows(rows[2..]) == ";;";
    assert JoinRows(rows[1..]) == "J.;;;";
    assert JoinRows(rows) == "Doe;J.;;;";
  }

  /** The same holds for every structured name: its first component holds
      at most one sub-value. */
  lemma NameLineDecodes(f: NameFields, x: string)
    requires NameFieldsRead(f) && (x == [] || !Blank(x[0]))
    ensures var v := ReadProp("N:" + JoinRows(NameComponents(f)) + "\r\n" + x).prop.value;
      v == NameComponents(f) && |v[0]| < 5
  {
    NamePieces(f);
    StructuredLine("N", NameComponents(f), x);
    assert "N" + ":" == "N:";
  }

  lemma NamePieces(f: NameFields)
    requires NameFieldsRead(f)
    ensures Pieces(NameComponents(f))
  {
    ComponentPieces(f.familyName);
    ComponentPieces(f.givenName);
    ComponentPieces(f.additionalName);
    ComponentPieces(f.honorificPrefix);
    ComponentPieces(f.honorificSuffix);
  }

  /** Read one field per component, a structured name written one field
      per component comes back field for field. */
  lemma NameByComponentRoundTrip(f: NameFields, x: string)
    requires NameFieldsRead(f) && (x == [] || !Blank(x[0]))
    ensures NameOfComponents(ReadProp("N:" + JoinRows(NameComponents(f)) + "\r\n" + x).prop.value) == f
  {
    NameLineDecodes(f, x);
  }

  /** As written, newAddress cannot read the address a structured ADR line
      decodes to: its first component holds at most one sub-value, short
      of the seven NewAddress requires. */
  lemma AddressLineMissesNewAddress()
    ensures var v := ReadProp("ADR:;;Elm;Oslo;;;\r\n").prop.value;
      v == [[], [], ["Elm"], ["Oslo"], [], [], []] && |v[0]| < 7
  {
    var f := AddressFields("", "", "Elm", "Oslo", "", "", "");
    AddressLineDecodes(f, "");
    AddressText();
  }

  lemma AddressText()
    ensures "ADR:" + JoinRows(AddressComponents(AddressFields("", "", "Elm", "Oslo", "", "", ""))) + "\r\n" + ""
         == "ADR:;;Elm;Oslo;;;\r\n"
    ensures AddressComponents(AddressFields("", "", "Elm", "Oslo", "", "", ""))
         == [[], [], ["Elm"], ["Oslo"], [], [], []]
  {
    var rows: seq<seq<string>> := [[], [], ["Elm"], ["Oslo"], [], [], []];
    assert JoinRows(rows[5..]) == ";";
    assert JoinRows(rows[4..]) == ";;";
    assert JoinRows(rows[3..]) == "Oslo;;;";
    assert JoinRows(rows[2..]) == "Elm;Oslo;;;";
    assert JoinRows(rows[1..]) == ";Elm;Oslo;;;";
    assert JoinRows(rows) == ";;Elm;Oslo;;;";
  }

  lemma AddressLineDecodes(f: AddressFields, x: string)
    requires AddressFieldsRead(f) && (x == [] || !Blank(x[0]))
    ensures var v := ReadProp("ADR:" + JoinRows(AddressComponents(f)) + "\r\n" + x).prop.value;
      v == AddressComponents(f) && |v[0]| < 7
  {
    AddressPieces(f);
    StructuredLine("ADR", AddressComponents(f), x);
    assert "ADR" + ":" == "ADR:";
  }

  lemma AddressPieces(f: AddressFields)
    requires AddressFieldsRead(f)
    ensures Pieces(AddressComponents(f))
  {
    ComponentPieces(f.postOfficeBox);
    ComponentPieces(f.extendedAddress);
    ComponentPieces(f.streetAddress);
    ComponentPieces(f.locality);
    ComponentPieces(f.region);
    ComponentPieces(f.postalCode);
    ComponentPieces(f.country);
  }

  /** Read one field per component, an address written one field per
      component comes back field for field. */
  lemma AddressByComponentRoundTrip(f: AddressFields, x: string)
    requires AddressFieldsRead(f) && (x == [] || !Blank(x[0]))
    ensures AddressOfComponents(ReadProp("ADR:" + JoinRows(AddressComponents(f)) + "\r\n" + x).prop.value) == f
  {
    AddressLineDecodes(f, x);
  }
}
