# go-vcard in Dafny

This project models the vCard (RFC 6350) text codec of go-vcard and its
in-memory data model, and proves properties of them.

- **Property** (`Properties.Property`) is one content line: a group, a name, a
  parameter map from names to value lists, and a two-level value. The value
  is split into components, and each component into sub-values.
- **Card** (`Cards.Card`) maps a property name to the properties of that name,
  in the order they were added.
- **Decoder** (`Decoding.Decoder`) reads text one character at a time through
  a scanner with one character of look-ahead. For each property it runs
  three phases:
  - group and name, up to the first `;` or `:`;
  - parameters `;NAME=V1,V2`;
  - the value, with `\` escapes and with lines folded by LF followed by a
    space or tab unfolded.

  Each phase is a loop method, and each is proved to compute a function of
  the text still to be read (module `Scan`).
- **Encoder** (module `Encoding`) writes the following:
  - `BEGIN:VCARD`;
  - the VERSION property;
  - every other property, key by key in ascending key order;
  - `END:VCARD`.

  `WriteValue` escapes CR, LF, `;`, `:` and `,`. It starts a continuation
  line (LF and two spaces) before every 77th, 153rd, … character.
- `MatrixToString` (module `Help`) renders a two-level value as one string.
- Module `RoundTrip` proves that the decoder reads back what the encoder
  writes. The input is a header as `WriteProperty` writes it, then a value
  as `WriteValue` writes it, then CRLF. Its requirements name each kind of
  text that does not survive the trip.
- Module `Structured` shows what the decoder makes of a structured value
  such as N or ADR: one component per field. `newName` and `newAddress` read
  every field from the first component instead (see Findings).
  `NewNameByComponent` and `NewAddressByComponent` read one field per
  component, and each gives back every field of a line decoded that way.
  `property()` shares the one-row layout; `Name.WriteBackByComponent` and
  `Address.WriteBackByComponent` write one field per component, the layout
  the corrected readers take back.

Where the encoder's tests and its code disagree, the model follows the code.
`encoder_test.go` expects property values and CRLF after each line, but
`WriteProperty` writes neither. It also expects a backslash to be written as
`\\`, but `WriteValue` copies a backslash unchanged.

## Model

| member | source | states |
|---|---|---|
| Strings.ToLower | property.go:62 | same length as the input, each character lower-cased (ASCII) |
| Strings.EqualFoldIsLowerEquality | property.go:72 | two strings are equal ignoring case exactly when their lower-cased forms are equal |
| Strings.SortKeys | encoder.go:27-31 | the keys of the card, each once, in strictly ascending order |
| Strings.SortedUnique | encoder.go:31 | a set of keys has only one ascending order, so the order Encode writes keys in is determined |
| Properties.FlattenShape | property.go:12-20 | the flattened value has as many entries as all rows together, and the first row comes first |
| Properties.Property.GetValueTextList | property.go:12-20 | the loop returns every sub-value in row order; its length is the sum of the row lengths |
| Properties.Property.GetValueFirstText | property.go:24-29 | `Value[0][0]`, which is the first flattened sub-value, when the first row is non-empty; otherwise "" |
| Properties.Property.GetFirstParamVal | property.go:34-39 | the first value of the named parameter, or "" when it has none or is absent |
| Properties.Property.AddParam | property.go:44-46 | `val` is appended to the key's list, which is created when absent; every other key and field is unchanged, and the map stays Valid (a nil map holds no entries) |
| Properties.Property.SetParam | property.go:51-53 | the key's list becomes exactly `[val]`; every other key and field is unchanged, and the map stays Valid |
| Properties.Property.GetParamTypeList | property.go:58-65 | as long as the TYPE list, entry i being TYPE value i lower-cased |
| Properties.Property.IsHasType | property.go:70-77 | true exactly when some TYPE value equals `t` ignoring case |
| Properties.AnyEqualFold | property.go:71-76 | the loop's result: true exactly when some list entry equals `t` ignoring case |
| Properties.HasTypeIffInLowerList | property.go:58-77 | IsHasType(t) holds exactly when lower-cased `t` is among the lower-cased TYPE values that GetParamTypeList returns |
| Properties.Property.Empty | property.go:103 | `new(Property)`: empty group, name and value, and a nil parameter map holding no entries (Valid) |
| Properties.NameOf | property.go:89-99 | the five name fields are the first five entries of the first row |
| Properties.NewName | property.go:89-99 | a fresh Name over `p` holding the first five entries of its first row |
| Properties.NewNameByComponent | property.go:89-99 | corrected newName: field i is the first sub-value of component i, or "" when that component is missing or empty; defined on every value |
| Properties.Name.WriteBack | property.go:101-122 | with no backing Property, a fresh one whose value is the single name row; otherwise the row is appended and everything else is unchanged; the Property is Valid afterwards |
| Properties.Name.WriteBackByComponent | property.go:101-122 | corrected property(): creates the Property when absent, and its value becomes one component per field, from which NameOfComponents gives back every field; group, name and parameters are unchanged; the Property is Valid afterwards |
| Properties.NameComponentsRoundTrip | property.go:89-122 | reading one field per component gives back every field of a name written one field per component |
| Properties.NameRowByComponent | property.go:89-122 | the one row that property() writes, read one field per component, keeps only the family name |
| Properties.NameRoundTrip | property.go:101-110 | newName on the Property that `property()` creates gives back the same five fields |
| Properties.NameAppendInvisible | property.go:111-119 | a row appended behind an existing first row does not change what newName reads |
| Properties.AddressOf | property.go:136-148 | the seven address fields are the first seven entries of the first row |
| Properties.NewAddress | property.go:136-148 | a fresh Address over `p` holding the first seven entries of its first row |
| Properties.NewAddressByComponent | property.go:136-148 | corrected newAddress: field i is the first sub-value of component i, or "" when that component is missing or empty; defined on every value |
| Properties.Address.WriteBack | property.go:150-164 | creates the Property when absent, then always appends the seven-field row; everything else is unchanged; the Property is Valid afterwards |
| Properties.Address.WriteBackByComponent | property.go:150-164 | corrected property(): creates the Property when absent, and its value becomes one component per field, from which AddressOfComponents gives back every field; group, name and parameters are unchanged; the Property is Valid afterwards |
| Properties.AddressComponentsRoundTrip | property.go:136-164 | reading one field per component gives back every field of an address written one field per component |
| Properties.AddressRoundTrip | property.go:150-164 | newAddress on the Property that `property()` creates on a fresh Address gives back its seven fields |
| Properties.AddressAppendInvisible | property.go:154-162 | a row appended behind an existing first row does not change what newAddress reads |
| Cards.First | vcard.go:10-16 | null exactly when the key is absent or its list is empty; otherwise the first property of the list |
| Cards.Card.Get | vcard.go:10-16 | null exactly when the key is absent or its list is empty; otherwise `c[k][0]` |
| Cards.Card.Add | vcard.go:20-22 | the key's list gains `p` at its end; every other key is unchanged |
| Cards.AppendedEffect | vcard.go:21 | appending makes the list one longer, keeps its earlier entries, gives `[p]` on an absent key, adds the key to the map, and leaves other keys alone |
| Cards.FirstAfterAppend | vcard.go:21 | after Add on an empty or absent key, Get returns `p`; on a non-empty key, and for every other key, Get is unchanged |
| Cards.Card.Set | vcard.go:26-28 | changes nothing |
| Help.MatrixToString | help.go:3-20 | the nested loop computes Matrix, the row-by-row definition of the text |
| Help.AppendColumns | help.go:9-16 | the inner loop computes Row: "," and the column once something was written, otherwise the column replaces the text |
| Help.MatrixSmall | help.go:3-20 | the empty matrix gives "" and `[[s]]` gives `s` |
| Help.SingleRowJoins | help.go:9-16 | a single row whose first entry is non-empty gives its entries joined by "," |
| Help.MatrixWithLeadingText | help.go:5-16 | once the first entry is non-empty, each later column adds "," and itself, and each later row adds ";" and its columns |
| Help.TwoRowsQuirk | help.go:6-11 | `[[a], [b]]` with `a` non-empty gives `a;,b`: the second row keeps its "," after the ";" |
| Help.EmptyEntriesVanish | help.go:10-14 | a matrix of empty strings gives "": empty entries add no separators while nothing was written |
| Decoding.Scanner.constructor | decoder.go:12-16 | scanning starts at the first character, or after it when it is a byte-order mark (U+FEFF), which `text/scanner` skips |
| Decoding.Decoder.constructor | decoder.go:12-16 | the decoder reads its input without a leading byte-order mark |
| Decoding.WithoutBomEffect | decoder.go:12-16 | only a byte-order mark at the very start is dropped; any other input is read whole |
| Decoding.Scanner.Next | decoder.go:57-58 | returns the look-ahead character and moves past it; at the end it returns EOF and stays there |
| Decoding.Decoder.Decode | decoder.go:18-26 | the card holds, under each name, the properties of that name in stream order; BEGIN and END lines are included, and the error is always nil |
| Decoding.Decoder.Step | decoder.go:21-24 | one pass of the loop: the property is appended under its own name, and the next one is read (null exactly at end of input) |
| Decoding.FiledData | decoder.go:21-24 | filing the decoded objects by name gives, value by value, the card that Collect describes |
| Decoding.AddedData | decoder.go:22 | appending a Property under its name appends its value under that name |
| Decoding.Decoder.ReadProp | decoder.go:28-40 | null exactly when no input is left; otherwise a fresh Property equal to Scan.ReadProp of the remaining text, and the scanner is left where that function stops |
| Decoding.Decoder.ReadHead | decoder.go:32-37 | group and name, the parameters read only when the name stopped at ';', then one character taken |
| Decoding.Decoder.ReadGroupName | decoder.go:42-61 | the loop computes Scan.ReadGroupName and leaves the stopping ';' or ':' unread |
| Decoding.Decoder.ReadParams | decoder.go:63-106 | the loop computes Scan.ScanParams and leaves the ':' unread |
| Decoding.Decoder.ReadValues | decoder.go:108-159 | the loop computes Scan.ScanValues, ending at the line feed that ends the value |
| Decoding.Decoder.ConsumeRune | decoder.go:132-151 | one character after the line-feed check is one step of Scan.Consume; what those steps add up to (',' closes a sub-value, ';' a component) is Scan.SplitsValues |
| Decoding.Decoder.SkipUnfoldBlanks | decoder.go:123-130 | after LF followed by a blank, every following space and tab is skipped; it stops at the first other character or at EOF |
| Scan.StopIndexAt | decoder.go:49-51 | readGroupName stops at the first ';' or ':' and at no other place |
| Scan.ReadGroupNameAt | decoder.go:42-61 | group and name are read from the text before the first ';' or ':'; at end of input the name stays "" |
| Scan.ScanGroupMeaning | decoder.go:46-56 | the group is the segment between the last two dots, and the name is the text after the last dot, both with CR and LF removed |
| Scan.GroupStep | decoder.go:46-56 | a '.' closes the pending segment as the group, CR and LF are skipped, and anything else extends the segment |
| Scan.GroupNameClean | decoder.go:42-61 | neither group nor name ever holds CR, LF, '.', ';' or ':' |
| Scan.CloseSegmentInPlace | decoder.go:75-88 | closing a segment appends its values to an existing key or creates the key, exactly as the two branches do |
| Scan.ScanParamsStops | decoder.go:89-91 | readParams stops at the first ':' and leaves it unread; without one it reads to the end |
| Scan.ParamNamesNonEmpty | decoder.go:81 | no parameter name is ever empty |
| Scan.ScanPlainParams | decoder.go:99-101 | text without `,;:=` only extends the buffer |
| Scan.ScanJoinedValues | decoder.go:72-74 | values joined by ',' are collected in order, and the last one stays in the buffer |
| Scan.SegmentHead | decoder.go:96-98 | `;NAME=` makes NAME the pending name |
| Scan.SegmentValues | decoder.go:75-91 | the ':' after `NAME=V1,...,Vn` adds exactly `[V1,...,Vn]` to NAME |
| Scan.NamedParam | decoder.go:72-100 | `;NAME=V1,...,Vn:` yields NAME with the values V1 … Vn |
| Scan.BareParam | decoder.go:76-82 | `;NAME:`, with no '=', yields NAME with one empty value |
| Scan.SemicolonCloses | decoder.go:92-95 | a ';' closes the open segment and starts again from a fresh state |
| Scan.SegmentThenNext | decoder.go:75-95 | a segment `;NAME=V` is closed by the ';' of the next one |
| Scan.RepeatedParamMerges | decoder.go:83-87 | a repeated parameter name gets its values concatenated in order, not replaced |
| Scan.ConsumeKeepsClean | decoder.go:132-151 | one character never puts an empty sub-value or a backslash into the result |
| Scan.DecodedValuesClean | decoder.go:114-158 | every decoded sub-value is non-empty, and none holds a backslash |
| Scan.UnterminatedDropsPending | decoder.go:114-158 | without a line feed the value never ends: only the components already closed by ';' are returned |
| Scan.UnterminatedTextIsLost | decoder.go:114-158 | so text without ';', backslash or line feed decodes to no component at all |
| Scan.Unfold | decoder.go:123-131 | LF followed by spaces and tabs is removed with all of them |
| Scan.ValuesUnfoldAt | decoder.go:115-131 | after an unfold, the next character is taken as is; at end of input the pending text is dropped |
| Scan.LineEnds | decoder.go:115-122 | LF not followed by a blank ends the value after flushing buffer and component; a bare CR is skipped |
| Scan.EscapeDecodes | decoder.go:132-139 | `\n` and `\N` decode to a line feed; any other escaped character except backslash and LF is kept literally |
| Scan.ScanThrough | decoder.go:114-157 | until a line feed, readValues takes the text one character at a time, each character one step of Consume |
| Scan.RowConsumed | decoder.go:140-144 | sub-values joined by ',' are collected into the open component in order, and the last one stays in the buffer |
| Scan.RowsConsumed | decoder.go:140-151 | components joined by ';' are closed one after the other, each with exactly its sub-values; the last stays open, with no escape pending |
| Scan.CrSkipped | decoder.go:152 | a CR before the line feed that ends the value changes nothing |
| Scan.SplitsValues | decoder.go:115-151 | components joined by ';', their sub-values (non-empty, without backslash, ',', ';', CR or LF) joined by ',', and ended by LF or CRLF before a non-blank, are read back as exactly those components, empty ones included; reading stops right after the LF |
| Scan.ReadAllAfter | decoder.go:20-23 | the property read first comes before everything read after it |
| Scan.CollectSnoc | decoder.go:22 | one more decoded property is appended under its own name |
| Scan.CollectKeys | decoder.go:21-24 | the card's keys are exactly the names of the decoded properties |
| Scan.CollectByName | decoder.go:21-24 | under each name, the card holds exactly the properties of that name, in stream order |
| Encoding.FoldAt | encoder.go:75-99 | with the counter at `i`, the first break comes after 76 − i characters and the counter then restarts; with no more characters, there is no break |
| Encoding.FoldedIsChunked | encoder.go:74-100 | WriteValue's text is the escaped 76-character chunks of the input joined by LF and two spaces, with no break at the end |
| Encoding.WriteValue | encoder.go:74-100 | the loop writes Folded(val): each character escaped, with a break before every 77th, 153rd, … character |
| Encoding.WriteJoined | encoder.go:57-62 | the values joined by "," |
| Encoding.EnumeratesMeans | encoder.go:52 | a parameter order lists every key once and nothing else |
| Encoding.EnumeratesSnoc | encoder.go:52-64 | the order extended by one unvisited key still lists every key visited so far once |
| Encoding.ParamsTextSnoc | encoder.go:52-64 | one more visited key adds `;KEY`, and `=v1,...,vn` only when it has values |
| Encoding.WriteProperty | encoder.go:45-72 | `GROUP.` only for a non-empty group, the name, the parameters in an order listing every key once (none when the map is nil), then ':'; no value |
| Encoding.WriteAll | encoder.go:37-39 | the properties of one key, in stored order, each header in turn |
| Encoding.ListedSnoc | encoder.go:32-36 | one more key contributes its properties, or none when it is VERSION ignoring case |
| Encoding.ListedMembers | encoder.go:32-39 | a property is written after the version exactly when it is stored under a key other than VERSION ignoring case |
| Encoding.WriteKeyed | encoder.go:32-40 | the key loop writes the properties of each key in the given order, skipping VERSION ignoring case |
| Encoding.WriteKey | encoder.go:33-39 | one pass of the key loop |
| Encoding.Encode | encoder.go:17-44 | without VERSION: the MissingVersion error with only BEGIN written. Otherwise: BEGIN, the VERSION property, the others by ascending key (VERSION keys skipped, stored order within a key), then END, with a nil error |
| RoundTrip.EscRead | encoder.go:81-97 | each escaped character other than backslash and CR is read back by readValues as itself |
| RoundTrip.BreakThenEsc | encoder.go:77-80 | a fold break followed by a character that is not a blank is unfolded, and the character is read back |
| RoundTrip.FoldRead | encoder.go:74-100 | the text written for `s` from any counter puts exactly `s` into readValues' buffer |
| RoundTrip.ValueRoundTrip | encoder.go:74-100 | a non-empty value without backslash or CR, and with no blank right after a fold, followed by CRLF, is read back as `[[s]]`; reading stops right after the LF |
| RoundTrip.SegmentRead | encoder.go:53-63 | one written parameter segment adds its values to the map when read back; an empty list comes back as one empty value |
| RoundTrip.ParamsTextRead | encoder.go:51-65 | the written parameter section, read up to the ':', adds each listed key's values in order |
| RoundTrip.RereadMeans | decoder.go:83-87 | with every key listed once, each listed key gets its values and no other key changes |
| RoundTrip.ParamsRoundTrip | encoder.go:51-66 | parameters written in any order the Go map may choose are read back as the same keys with the same values (an empty list as `[""]`) |
| RoundTrip.GroupNameRead | encoder.go:46-50 | `GROUP.NAME`, or `NAME` alone, is read back as the same group and name |
| RoundTrip.HeaderRead | encoder.go:45-66 | a written header followed by any text is read back as the same group, name and parameters, the value and the stopping point being what readValues makes of that text |
| RoundTrip.PropertyRoundTrip | encoder.go:45-66 | a written header, then a written value and CRLF, is read back as the same group, name and parameters, with `[[s]]` as the value |
| Structured.StructuredLine | decoder.go:28-40 | a line `NAME:` with components joined by ';' and CRLF is read as that name, with no group, no parameters and exactly those components |
| Structured.NameLineMissesNewName | property.go:89-99 | `N:Doe;J.;;;` CRLF decodes to `[["Doe"], ["J."], [], [], []]`, whose first component holds one sub-value, short of the five NewName requires |
| Structured.NameLineDecodes | property.go:89-99 | every structured name whose fields are each empty, or non-empty and free of backslash, ',', ';', CR and LF, written one field per component decodes to those components, the first holding at most one sub-value, so newName as written never applies |
| Structured.NameByComponentRoundTrip | property.go:89-99 | read one field per component, a structured name line whose fields are each empty, or non-empty and free of backslash, ',', ';', CR and LF, gives back every field |
| Structured.AddressLineMissesNewAddress | property.go:136-148 | `ADR:;;Elm;Oslo;;;` CRLF decodes to seven components, the first empty, short of the seven sub-values NewAddress requires |
| Structured.AddressLineDecodes | property.go:136-148 | every address whose fields are each empty, or non-empty and free of backslash, ',', ';', CR and LF, written one field per component decodes to those components, the first holding at most one sub-value |
| Structured.AddressByComponentRoundTrip | property.go:136-148 | read one field per component, an address line whose fields are each empty, or non-empty and free of backslash, ',', ';', CR and LF, gives back every field |

## Left out

- Stream plumbing. `io.Reader` and the setup of `text/scanner` are not modelled, except that a leading byte-order mark is skipped as `text/scanner` does: the decoder reads a string held by `Decoding.Scanner`. `io.Writer` is not modelled either: each encoder method returns the text it writes. Writes never fail, so the error of the BEGIN write (encoder.go:19-21) is never returned.
- `NewEncoder` and the `Encoder` struct are left out. The struct holds nothing but the writer.
- Go's map iteration order (encoder.go:28 and encoder.go:52) is unspecified. The model does not fix it: WriteProperty returns the order it used as a ghost value, and the contracts hold for every order that lists each key once.
- Case folding is ASCII only. Go's `strings.ToLower` and `strings.EqualFold` fold all of Unicode.
- Characters are Dafny `char`s, where Go reads runes. The scanner's EOF is the `EOF` value of `Decoding.Rune`.
- A nil `Params` map is recorded by the flag `paramsNil`. Writing into a nil map panics in Go, so AddParam and SetParam require that the map is not nil.
- The panics of newName and newAddress on short first rows become the preconditions of NewName and NewAddress. Decoded structured values never meet them (see Findings).
- Cards.Card.Add: the lists of a Card hold non-null Property objects, while Go's `Add` also accepts a nil `*Property` (vcard.go:20-22). So Get is null only for an absent or empty list; in Go a list whose first entry is nil also gives nil, and Encode then reports the missing version (encoder.go:22-24). A nil property under another key, which WriteProperty dereferences and panics on (encoder.go:46), cannot occur in the model.
- WriteProperty's loops over the value (encoder.go:67-71) have empty bodies. So Encode writes no values and no line ends, and `WriteValue` is never called by Encode.
- RoundTrip.PropertyRoundTrip: it covers only text without characters that do not survive the trip:
  - a backslash, which WriteValue does not escape;
  - CR, written as `\r` and read back as `r`;
  - a space or tab right after a fold, dropped with the folding blanks;
  - `,;:=` in parameter names and values, which WriteProperty writes unescaped;
  - `.`, `;`, `:`, CR and LF in the group or name;
  - an empty parameter name: `;=v` is read back as a parameter named `v`;
  - an empty value: it is read back as one empty component, `[[]]`.
- defs.go defines only constants. The two the core uses, `TYPE` and `VERSION`, are restated.

## Findings

| source | as written | input that shows it | evidently intended | confidence | as-written member | corrected member |
|---|---|---|---|---|---|---|
| property.go:89-99 | newName reads all five fields from the first component, `Value[0][0]` to `Value[0][4]` | `N:Doe;J.;;;` CRLF: readValues puts each ';'-separated part in a component of its own (decoder.go:145-151), giving `[["Doe"], ["J."], [], [], []]`, so `vals[1]` is out of range and newName panics | field i read from component i, the layout the decoder produces | medium; not executed | Structured.NameLineMissesNewName | Structured.NameByComponentRoundTrip |
| property.go:101-122 | property() writes the five name fields as one row, the layout newName reads | the name Doe, J. written back gives `[["Doe", "J.", "", "", ""]]`, which the field-per-component reader takes for the family name alone | fields written one per component, so that property() and the corrected newName agree | medium; not executed | Properties.NameRowByComponent | Properties.Name.WriteBackByComponent |
| property.go:136-148 | newAddress reads all seven fields from the first component | `ADR:;;Elm;Oslo;;;` CRLF decodes to `[[], [], ["Elm"], ["Oslo"], [], [], []]`, so `vals[0]` is already out of range and newAddress panics | field i read from component i | medium; not executed | Structured.AddressLineMissesNewAddress | Structured.AddressByComponentRoundTrip |
