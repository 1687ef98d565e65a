/** What the decoder makes of the text the encoder writes: a property
    header as WriteProperty writes it, followed by a value as WriteValue
    writes it and a CRLF, is read back by readProperty. The requirements of
    each lemma name what does not survive the trip: a backslash (the
    encoder does not escape it), a carriage return (written as `\r`, read
    back as `r`), a space or tab right after a line fold (dropped with the
    folding blanks), and parameter names or values holding `,;:=` (written
    unescaped). */
module RoundTrip {
  import opened Strings
  import opened Properties
  import opened Scan
  import opened Encoding

  // ---------------------------------------------------------------------
  // Values.

  /** Characters WriteValue writes in a way readValues reads back. */
  predicate Restorable(s: string) {
    '\\' !in s && '\r' !in s
  }

  /** No space or tab stands where WriteValue, with its counter at `i`,
      starts a continuation line. */
  predicate NoBlankAtFold(s: string, i: nat) {
    forall j :: 0 <= j < |s| && i + j > 0 && (i + j) % FoldWidth == 0 ==> !Blank(s[j])
  }

  /** One escaped character is read back as that character. */
  lemma EscRead(c: char, rest: string, st: ValueState)
    requires !st.escape && c != '\\' && c != '\r'
    ensures ScanValues(Esc(c) + rest, st) == ScanValues(rest, st.(buf := st.buf + [c]))
  {
    var t := Esc(c) + rest;
    if |Esc(c)| == 2 {
      assert t[0] == '\\' && t[1..] == [Esc(c)[1]] + rest;
      assert ([Esc(c)[1]] + rest)[1..] == rest;
    } else {
      assert t[1..] == rest;
    }
  }

  /** What readValues sees first of an escaped character. */
  lemma EscHead(c: char)
    ensures Esc(c) != [] && Esc(c)[0] != '\n'
    ensures !Blank(c) ==> !Blank(Esc(c)[0])
  {
  }

  /** One escaped character, after a line fold when `brk`, is read back
      as that character. */
  lemma BreakThenEsc(brk: bool, c: char, rest: string, st: ValueState)
    requires !st.escape && c != '\\' && c != '\r' && (brk ==> !Blank(c))
    ensures ScanValues((if brk then FoldBreak else "") + Esc(c) + rest, st)
         == ScanValues(rest, st.(buf := st.buf + [c]))
  {
    EscRead(c, rest, st);
    if brk {
      EscHead(c);
      assert FoldBreak + Esc(c) + rest == "\n" + "  " + (Esc(c) + rest);
      Unfold("  ", Esc(c) + rest, st);
    } else {
      assert "" + Esc(c) + rest == Esc(c) + rest;
    }
  }

  /** The requirements of FoldRead pass from `s` to its tail with the
      counter WriteValue moves on to. */
  lemma FoldStep(s: string, i: nat)
    requires s != [] && i <= FoldWidth && Restorable(s) && NoBlankAtFold(s, i)
    ensures s[0] != '\\' && s[0] != '\r' && (i == FoldWidth ==> !Blank(s[0]))
    ensures Restorable(s[1..]) && NoBlankAtFold(s[1..], (if i == FoldWidth then 0 else i) + 1)
  {
    assert s[0] in s;
    assert forall c :: c in s[1..] ==> c in s;
    var i' := (if i == FoldWidth then 0 else i) + 1;
    forall j | 0 <= j < |s| - 1 && i' + j > 0 && (i' + j) % FoldWidth == 0
      ensures !Blank(s[1..][j])
    {
      assert (i + (j + 1)) % FoldWidth == 0 by {
        assert i + (j + 1) == i' + j + (if i == FoldWidth then FoldWidth else 0);
      }
    }
  }

  /** WriteValue's text for `s`, counter at `i`, puts `s` into the buffer of
      readValues, the continuation lines unfolded. */
  lemma {:induction false} FoldRead(s: string, i: nat, tail: string, st: ValueState)
    requires i <= FoldWidth && !st.escape
    requires Restorable(s) && NoBlankAtFold(s, i)
    ensures ScanValues(Fold(s, i) + tail, st) == ScanValues(tail, st.(buf := st.buf + s))
    decreases |s|
  {
    if s == [] {
      Unit(tail);
      Unit(st.buf);
    } else {
      var brk := i == FoldWidth;
      var i' := (if brk then 0 else i) + 1;
      var rest := Fold(s[1..], i') + tail;
      FoldStep(s, i);
      FoldUnroll(s, i, tail);
      BreakThenEsc(brk, s[0], rest, st);
      var st' := st.(buf := st.buf + [s[0]]);
      FoldRead(s[1..], i', tail, st');
      HeadTail(st.buf, s);
    }
  }

  lemma CrLf(x: string)
    ensures "\r\n" + x == "\r" + ("\n" + x)
  {
  }

  /** A buffer alone flushes to one component with one sub-value. */
  lemma FlushOne(s: string)
    requires s != []
    ensures Flush(FreshValues.(buf := s)) == [[s]]
  {
    var st := FreshValues.(buf := s);
    var row: seq<string> := [s];
    assert st.val + [s] == row;
    var rows: seq<seq<string>> := [row];
    assert st.values + [row] == rows;
  }

  lemma Unit<T>(s: seq<T>)
    ensures [] + s == s && s + [] == s
  {
  }

  lemma HeadTail(b: string, s: string)
    requires s != []
    ensures b + [s[0]] + s[1..] == b + s
  {
    assert s == [s[0]] + s[1..];
  }

  /** Fold's first step, with the text after it. */
  lemma FoldUnroll(s: string, i: nat, tail: string)
    requires s != [] && i <= FoldWidth
    ensures Fold(s, i) + tail
         == (if i == FoldWidth then FoldBreak else "") + Esc(s[0]) + (Fold(s[1..], (if i == FoldWidth then 0 else i) + 1) + tail)
  {
  }

  /** A non-empty value written by WriteValue and ended by CRLF is read
      back as one component holding one sub-value, and reading stops right
      after the line feed. Escaped ',' and ';' do not split it. */
  lemma ValueRoundTrip(s: string, x: string)
    requires s != [] && Restorable(s) && NoBlankAtFold(s, 0)
    requires x == [] || !Blank(x[0])
    ensures ScanValues(Folded(s) + "\r\n" + x, FreshValues) == ValuesRead([[s]], |x|)
  {
    var st := FreshValues.(buf := s);
    calc {
      ScanValues(Folded(s) + "\r\n" + x, FreshValues);
      { Assoc(Folded(s), "\r\n", x); }
      ScanValues(Fold(s, 0) + ("\r\n" + x), FreshValues);
      { FoldRead(s, 0, "\r\n" + x, FreshValues); Unit(s); }
      ScanValues("\r\n" + x, st);
      { CrLf(x); LineEnds("\n" + x, st); }
      ScanValues("\n" + x, st);
      { LineEnds(x, st); }
      ValuesRead(Flush(st), |x|);
    }
    FlushOne(s);
  }

  // ---------------------------------------------------------------------
  // Parameters.

  /** What a parameter written with `vals` is read back as: an empty list
      is written as a bare name, which reads as one empty value. */
  function Given(vals: seq<string>): (r: seq<string>)
    ensures |r| > 0
    ensures vals != [] ==> r == vals
  {
    if vals == [] then [""] else vals
  }

  /** The parameter map readParams builds from the segments for `order`,
      starting from `acc`. */
  function Reread(acc: map<string, seq<string>>, params: map<string, seq<string>>, order: seq<string>): map<string, seq<string>>
    decreases |order|
  {
    if order == [] then acc
    else
      var k := order[0];
      Reread(acc[k := Lookup(acc, k) + Given(Lookup(params, k))], params, order[1..])
  }

  /** Parameters whose names and values readParams can split apart. */
  predicate PlainParams(params: map<string, seq<string>>) {
    forall k :: k in params ==> k != "" && Plain(k) && forall j :: 0 <= j < |params[k]| ==> Plain(params[k][j])
  }

  /** A ';' or the ':' closes the open segment. */
  lemma Closes(u: string, st: ParamState)
    requires |u| > 0 && (u[0] == ';' || u[0] == ':')
    ensures ScanParams(u, st) == ScanParams(u, FreshParams.(params := CloseSegment(st)))
  {
    if u[0] == ';' {
      SemicolonCloses(u, st);
    }
  }

  /** One segment as WriteProperty writes it, followed by the next segment
      or the ':', adds its values to the map. */
  lemma SegmentRead(key: string, vals: seq<string>, u: string, acc: map<string, seq<string>>)
    requires key != "" && Plain(key) && forall j :: 0 <= j < |vals| ==> Plain(vals[j])
    requires |u| > 0 && (u[0] == ';' || u[0] == ':')
    ensures ScanParams(ParamText(key, vals) + u, FreshParams.(params := acc))
         == ScanParams(u, FreshParams.(params := acc[key := Lookup(acc, key) + Given(vals)]))
  {
    if vals == [] {
      BareSegmentRead(key, u, acc);
    } else {
      ValuedSegmentRead(key, vals, u, acc);
    }
  }

  lemma BareSegmentRead(key: string, u: string, acc: map<string, seq<string>>)
    requires key != "" && Plain(key)
    requires |u| > 0 && (u[0] == ';' || u[0] == ':')
    ensures ScanParams(ParamText(key, []) + u, FreshParams.(params := acc))
         == ScanParams(u, FreshParams.(params := acc[key := Lookup(acc, key) + [""]]))
  {
    var st0 := FreshParams.(params := acc);
    var st1 := ParamState(acc, "", [], key);
    calc {
      ScanParams(ParamText(key, []) + u, st0);
      { BareText(key, u); }
      ScanParams([';'] + (key + u), st0);
      { ParamStepAt(';', key + u, st0); }
      ScanParams(key + u, ParamStep(st0, ';'));
      { assert ParamStep(st0, ';') == st0; }
      ScanParams(key + u, st0);
      { ScanPlainParams(key, u, st0); Unit(key); }
      ScanParams(u, st1);
      { Closes(u, st1); CloseBare(acc, key); }
      ScanParams(u, FreshParams.(params := acc[key := Lookup(acc, key) + [""]]));
    }
  }

  lemma ValuedSegmentRead(key: string, vals: seq<string>, u: string, acc: map<string, seq<string>>)
    requires key != "" && Plain(key) && forall j :: 0 <= j < |vals| ==> Plain(vals[j])
    requires vals != [] && |u| > 0 && (u[0] == ';' || u[0] == ':')
    ensures ScanParams(ParamText(key, vals) + u, FreshParams.(params := acc))
         == ScanParams(u, FreshParams.(params := acc[key := Lookup(acc, key) + vals]))
  {
    var n := |vals| - 1;
    var st0 := FreshParams.(params := acc);
    var st1 := st0.(name := key);
    var st2 := ParamState(acc, key, vals[..n], vals[n]);
    calc {
      ScanParams(ParamText(key, vals) + u, st0);
      { ValuedText(key, vals, u); }
      ScanParams(";" + key + "=" + (Join(vals) + u), st0);
      { SegmentHead(key, Join(vals) + u, st0); }
      ScanParams(Join(vals) + u, st1);
      { ScanJoinedValues(vals, u, st1); Unit(vals[..n]); }
      ScanParams(u, st2);
      { Closes(u, st2); CloseValued(acc, key, vals); }
      ScanParams(u, FreshParams.(params := acc[key := Lookup(acc, key) + vals]));
    }
  }

  lemma BareText(key: string, u: string)
    ensures ParamText(key, []) + u == [';'] + (key + u)
  {
  }

  lemma ValuedText(key: string, vals: seq<string>, u: string)
    requires vals != []
    ensures ParamText(key, vals) + u == ";" + key + "=" + (Join(vals) + u)
  {
  }

  lemma CloseBare(acc: map<string, seq<string>>, key: string)
    requires key != ""
    ensures CloseSegment(ParamState(acc, "", [], key)) == acc[key := Lookup(acc, key) + [""]]
  {
    assert Lookup(acc, key) + [] + [""] == Lookup(acc, key) + [""];
  }

  lemma CloseValued(acc: map<string, seq<string>>, key: string, vals: seq<string>)
    requires key != "" && vals != []
    ensures CloseSegment(ParamState(acc, key, vals[..|vals| - 1], vals[|vals| - 1])) == acc[key := Lookup(acc, key) + vals]
  {
    var n := |vals| - 1;
    assert vals[..n] + [vals[n]] == vals;
    assert Lookup(acc, key) + vals[..n] + [vals[n]] == Lookup(acc, key) + vals;
  }

  /** The parameter section WriteProperty writes, then ':' and anything,
      is read up to that ':' into Reread's map. */
  lemma {:induction false} ParamsTextRead(params: map<string, seq<string>>, order: seq<string>,
                                          acc: map<string, seq<string>>, y: string)
    requires PlainParams(params) && forall k :: k in order ==> k in params
    ensures ScanParams(ParamsText(params, order) + ":" + y, FreshParams.(params := acc))
         == ParamsRead(Reread(acc, params, order), |y| + 1)
    decreases |order|
  {
    if order == [] {
      assert ParamsText(params, order) + ":" + y == [':'] + y;
    } else {
      var k := order[0];
      assert k in params;
      var u := ParamsText(params, order[1..]) + ":" + y;
      assert u[0] == ';' || u[0] == ':';
      assert ParamsText(params, order) + ":" + y == ParamText(k, Lookup(params, k)) + u;
      SegmentRead(k, Lookup(params, k), u, acc);
      assert forall k' :: k' in order[1..] ==> k' in order;
      ParamsTextRead(params, order[1..], acc[k := Lookup(acc, k) + Given(Lookup(params, k))], y);
    }
  }

  /** With every key listed once, each key listed gets its values added
      and nothing else changes. */
  lemma {:induction false} RereadMeans(acc: map<string, seq<string>>, params: map<string, seq<string>>, order: seq<string>)
    requires forall i, j :: 0 <= i < j < |order| ==> order[i] != order[j]
    ensures forall k :: k in Reread(acc, params, order) <==> k in acc || k in order
    ensures forall k :: Lookup(Reread(acc, params, order), k)
                        == Lookup(acc, k) + (if k in order then Given(Lookup(params, k)) else [])
    decreases |order|
  {
    if order != [] {
      var k0 := order[0];
      var acc' := acc[k0 := Lookup(acc, k0) + Given(Lookup(params, k0))];
      assert forall i, j :: 0 <= i < j < |order[1..]| ==> order[1..][i] != order[1..][j] by {
        forall i, j | 0 <= i < j < |order[1..]| ensures order[1..][i] != order[1..][j] {
          assert order[1..][i] == order[i + 1] && order[1..][j] == order[j + 1];
        }
      }
      RereadMeans(acc', params, order[1..]);
      assert k0 !in order[1..] by {
        forall j | 0 <= j < |order[1..]| ensures order[1..][j] != k0 {
          assert order[1..][j] == order[j + 1];
        }
      }
      assert forall k :: k in order <==> k == k0 || k in order[1..] by {
        assert order == [k0] + order[1..];
      }
    }
  }

  /** The map readParams returns for a parameter section written in an
      order the Go map may yield: every key with its values, an empty list
      as one empty value. */
  function ReadBackParams(params: map<string, seq<string>>): (m: map<string, seq<string>>)
    ensures m.Keys == params.Keys
  {
    map k | k in params :: Given(params[k])
  }
  /** The parameter section WriteProperty writes, in any order the Go map
      may yield, followed by ':', is read back up to the ':' as the same
      keys, each with its values, an empty list as one empty value. */
  lemma ParamsRoundTrip(params: map<string, seq<string>>, order: seq<string>, y: string)
    requires PlainParams(params) && Enumerates(order, params.Keys)
    ensures ScanParams(ParamsText(params, order) + ":" + y, FreshParams) == ParamsRead(ReadBackParams(params), |y| + 1)
  {
    EnumeratesMeans(order, params.Keys);
    var e: map<string, seq<string>> := map[];
    assert FreshParams.(params := e) == FreshParams;
    ParamsTextRead(params, order, e, y);
    RereadFromEmpty(params, order);
  }

  lemma RereadFromEmpty(params: map<string, seq<string>>, order: seq<string>)
    requires forall i, j :: 0 <= i < j < |order| ==> order[i] != order[j]
    requires forall k :: k in order <==> k in params
    ensures Reread(map[], params, order) == ReadBackParams(params)
  {
    var e: map<string, seq<string>> := map[];
    var m := Reread(e, params, order);
    var r := ReadBackParams(params);
    assert m.Keys == r.Keys && forall k :: k in m ==> m[k] == r[k] by {
      RereadMeans(e, params, order);
      forall k | k in m ensures m[k] == r[k] {
        assert Lookup(m, k) == Lookup(e, k) + Given(Lookup(params, k));
        Unit(Given(params[k]));
      }
    }
    MapsEqual(m, r);
  }

  lemma MapsEqual(m: map<string, seq<string>>, r: map<string, seq<string>>)
    requires m.Keys == r.Keys && forall k :: k in m ==> m[k] == r[k]
    ensures m == r
  {
  }

  // ---------------------------------------------------------------------
  // Group and name.

  /** Text free of the characters readGroupName acts on. */
  predicate Word(s: string) {
    forall c :: c in s ==> c != '.' && c != ';' && c != ':' && c != '\r' && c != '\n'
  }

  /** A word only lengthens readGroupName's buffer. */
  lemma {:induction false} ScanGroupWord(h: string, w: string)
    requires Word(w)
    ensures ScanGroup(h + w) == ScanGroup(h).(buf := ScanGroup(h).buf + w)
    decreases |w|
  {
    if w == [] {
      assert h + w == h;
      assert ScanGroup(h).buf + w == ScanGroup(h).buf;
    } else {
      var n := |w| - 1;
      assert w[n] in w;
      assert Word(w[..n]) by {
        assert forall c :: c in w[..n] ==> c in w;
      }
      ScanGroupWord(h, w[..n]);
      assert (h + w)[..|h + w| - 1] == h + w[..n];
      assert ScanGroup(h).buf + w[..n] + [w[n]] == ScanGroup(h).buf + w;
    }
  }

  /** `GROUP.NAME`, or `NAME` without a group, as WriteProperty writes it. */
  function GroupNameText(group: string, name: string): string {
    (if group != "" then group + "." else "") + name
  }

  /** The group-name text, read as group and buffer. */
  lemma GroupNameRead(group: string, name: string)
    requires Word(group) && Word(name)
    ensures ScanGroup(GroupNameText(group, name)) == GroupScan(group, name)
    ensures forall c :: c in GroupNameText(group, name) ==> c != ';' && c != ':'
  {
    ScanGroupWord([], group);
    assert [] + group == group;
    if group != "" {
      assert (group + ".")[..|group|] == group;
      assert ScanGroup(group + ".") == GroupScan(group, "");
      ScanGroupWord(group + ".", name);
      assert forall c :: c in GroupNameText(group, name) ==> c in group || c == '.' || c in name;
    } else {
      ScanGroupWord([], name);
      assert [] + name == name;
      assert "" + name == name;
    }
  }

  // ---------------------------------------------------------------------
  // A whole property.

  /** A property header as WriteProperty writes it is read back by
      readProperty as the same group, name and parameters, whatever value
      text `y` follows it; the value is what readValues makes of `y`. */
  lemma HeaderRead(d: PropData, order: seq<string>, y: string)
    requires Word(d.group) && Word(d.name) && PlainParams(d.params) && Enumerates(order, d.params.Keys)
    ensures var v := ScanValues(y, FreshValues);
      ReadProp(Header(d, order) + y) == PropRead(PropData(d.group, d.name, ReadBackParams(d.params), v.values), v.rest)
  {
    var gn := GroupNameText(d.group, d.name);
    var u := ParamsText(d.params, order) + ":" + y;
    var t := Header(d, order) + y;
    HeaderText(d, order, y);
    assert t == gn + u;
    ParamsRoundTrip(d.params, order, y);
    ParamsTextHead(d.params, order, y);
    GroupNameRead(d.group, d.name);
    WordThenStop(gn, u);
    ReadGroupNameAt(t, |gn|);
    ParamsOfHeader(t, |gn|, d.params, order, y);
    var j := |t| - |y| - 1;
    assert t[j + 1..] == y by {
      Suffix(gn + ParamsText(d.params, order) + ":", y);
      Assoc(gn, ParamsText(d.params, order) + ":", y);
      Assoc(gn, ParamsText(d.params, order), ":");
    }
    var v := ScanValues(y, FreshValues);
    ReadPropStages(t, |gn|, j, j + 1, d.group, d.name, ReadBackParams(d.params), v.values, v.rest);
  }

  /** A property header as WriteProperty writes it, followed by a value as
      WriteValue writes it and CRLF, is read back by readProperty as the
      same group, name and parameters and the value as its one
      sub-value, reading stopping after the line feed. */
  lemma PropertyRoundTrip(d: PropData, order: seq<string>, s: string, x: string)
    requires Word(d.group) && Word(d.name) && PlainParams(d.params) && Enumerates(order, d.params.Keys)
    requires s != [] && Restorable(s) && NoBlankAtFold(s, 0)
    requires x == [] || !Blank(x[0])
    ensures ReadProp(Header(d, order) + Folded(s) + "\r\n" + x)
         == PropRead(PropData(d.group, d.name, ReadBackParams(d.params), [[s]]), |x|)
  {
    var y := Folded(s) + "\r\n" + x;
    assert Header(d, order) + Folded(s) + "\r\n" + x == Header(d, order) + y by {
      Assoc(Header(d, order), Folded(s), "\r\n");
      Assoc(Header(d, order), Folded(s) + "\r\n", x);
    }
    HeaderRead(d, order, y);
    ValueRoundTrip(s, x);
  }

  lemma HeaderText(d: PropData, order: seq<string>, y: string)
    ensures Header(d, order) + y
         == GroupNameText(d.group, d.name) + (ParamsText(d.params, order) + ":" + y)
  {
  }

  lemma Suffix(a: string, b: string)
    ensures (a + b)[|a|..] == b
  {
  }

  /** The parameter section is empty or starts with ';'; the text read
      after the group and name starts with ';' or ':'. */
  lemma ParamsTextHead(params: map<string, seq<string>>, order: seq<string>, y: string)
    ensures order == [] ==> ParamsText(params, order) == []
    ensures var u := ParamsText(params, order) + ":" + y; (u[0] == ';' || u[0] == ':') && (u[0] == ':' <==> order == [])
  {
  }

  /** readGroupName on a word followed by ';' or ':' stops after the word. */
  lemma WordThenStop(w: string, u: string)
    requires (forall c :: c in w ==> c != ';' && c != ':') && |u| > 0 && (u[0] == ';' || u[0] == ':')
    ensures forall k :: 0 <= k < |w| ==> (w + u)[k] != ';' && (w + u)[k] != ':'
    ensures (w + u)[|w|] == ';' || (w + u)[|w|] == ':'
    ensures (w + u)[..|w|] == w && (w + u)[|w|..] == u
  {
    forall k | 0 <= k < |w| ensures (w + u)[k] != ';' && (w + u)[k] != ':' {
      assert (w + u)[k] == w[k] && w[k] in w;
    }
  }

  /** readProperty's parameter phase on a header WriteProperty wrote. */
  lemma ParamsOfHeader(t: string, i: nat, params: map<string, seq<string>>, order: seq<string>, y: string)
    requires PlainParams(params) && Enumerates(order, params.Keys)
    requires i <= |t| && t[i..] == ParamsText(params, order) + ":" + y
    ensures ParamsOf(t, i) == ParamsRead(ReadBackParams(params), |y| + 1)
  {
    ParamsTextHead(params, order, y);
    ParamsRoundTrip(params, order, y);
    if order == [] {
      EnumeratesMeans(order, params.Keys);
      assert params.Keys == {};
      assert ReadBackParams(params) == map[];
      assert t[i] == ':';
    } else {
      assert t[i] == ';';
    }
  }
}
