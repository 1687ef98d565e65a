/** What the decoder computes, as functions of the text still to be read.
    Each phase returns what it built and `rest`, the number of characters it
    left unread; the Decoder class in decoder.dfy is proved to follow them. */
module Scan {
  import opened Strings
  import opened Properties
  import opened Cards

  // ---------------------------------------------------------------------
  // Group and name: everything up to the first ';' or ':'.

  /** Index of the first ';' or ':', or the length when there is none. */
  function StopIndex(t: string): (i: nat)
    ensures i <= |t|
    ensures forall k :: 0 <= k < i ==> t[k] != ';' && t[k] != ':'
    ensures i < |t| ==> t[i] == ';' || t[i] == ':'
  {
    if t == [] then 0
    else if t[0] == ';' || t[0] == ':' then 0
    else 1 + StopIndex(t[1..])
  }

  /** The first stop is unique: a prefix without stops followed by a stop or
      by the end is the one StopIndex finds. */
  lemma {:induction false} StopIndexAt(t: string, i: nat)
    requires i <= |t|
    requires forall k :: 0 <= k < i ==> t[k] != ';' && t[k] != ':'
    requires i < |t| ==> t[i] == ';' || t[i] == ':'
    ensures StopIndex(t) == i
  {
    if i > 0 {
      StopIndexAt(t[1..], i - 1);
    }
  }

  /** The text with every CR and LF removed. */
  function DropLineBreaks(t: string): string {
    if t == [] then []
    else
      var init := DropLineBreaks(t[..|t| - 1]);
      var c := t[|t| - 1];
      if c == '\r' || c == '\n' then init else init + [c]
  }

  /** The text after the last '.', or all of it when there is none. */
  function AfterLastDot(t: string): string {
    if t == [] then []
    else if t[|t| - 1] == '.' then []
    else AfterLastDot(t[..|t| - 1]) + [t[|t| - 1]]
  }

  /** The text before the last '.', or "" when there is none. */
  function BeforeLastDot(t: string): string {
    if t == [] then []
    else if t[|t| - 1] == '.' then t[..|t| - 1]
    else BeforeLastDot(t[..|t| - 1])
  }

  datatype GroupName = GroupName(group: string, name: string, rest: nat)

  /** The two locals of readGroupName's loop. */
  datatype GroupScan = GroupScan(group: string, buf: string)

  /** readGroupName's loop over text free of ';' and ':': a '.' makes the
      buffer the group and empties it, CR and LF are skipped, anything else
      is appended to the buffer. */
  function ScanGroup(h: string): GroupScan {
    if h == [] then GroupScan("", "")
    else
      var g := ScanGroup(h[..|h| - 1]);
      var c := h[|h| - 1];
      if c == '.' then GroupScan(g.buf, "")
      else if c == '\r' || c == '\n' then g
      else g.(buf := g.buf + [c])
  }

  /** readGroupName on `t`: it stops at the first ';' or ':' without reading
      it, and the buffer becomes the name; at end of input the name is
      never assigned and stays "". */
  function ReadGroupName(t: string): (r: GroupName)
    ensures r.rest == |t| - StopIndex(t)
  {
    var i := StopIndex(t);
    var g := ScanGroup(t[..i]);
    GroupName(g.group, if i < |t| then g.buf else "", |t| - i)
  }

  /** readGroupName's result once its loop has stopped at `i`. */
  lemma ReadGroupNameAt(t: string, i: nat)
    requires i <= |t|
    requires forall k :: 0 <= k < i ==> t[k] != ';' && t[k] != ':'
    requires i < |t| ==> t[i] == ';' || t[i] == ':'
    ensures ReadGroupName(t) == GroupName(ScanGroup(t[..i]).group, if i < |t| then ScanGroup(t[..i]).buf else "", |t| - i)
  {
    StopIndexAt(t, i);
  }

  /** The segment being collected after reading `h`: the text since the
      last '.', without CR and LF. */
  function Pending(h: string): string {
    DropLineBreaks(AfterLastDot(h))
  }

  /** The group after reading `h`: the segment closed by the last '.', or ""
      while there is no '.'. */
  function LastGroup(h: string): string {
    if '.' in h then DropLineBreaks(AfterLastDot(BeforeLastDot(h))) else ""
  }

  /** Neither group nor name holds CR, LF, '.', ';' or ':'. */
  lemma GroupNameClean(t: string)
    ensures var r := ReadGroupName(t);
      forall c :: (c in r.group || c in r.name) ==> c !in "\r\n.;:"
  {
    var i := StopIndex(t);
    var head := t[..i];
    assert forall c :: c in head ==> c != ';' && c != ':';
    ScanGroupMeaning(head);
    DropLineBreaksChars(AfterLastDot(head));
    AfterLastDotChars(head);
    BeforeLastDotChars(head);
    DropLineBreaksChars(AfterLastDot(BeforeLastDot(head)));
    AfterLastDotChars(BeforeLastDot(head));
  }

  lemma {:induction false} DropLineBreaksChars(t: string)
    ensures forall c :: c in DropLineBreaks(t) ==> c in t && c != '\r' && c != '\n'
  {
    if t != [] {
      DropLineBreaksChars(t[..|t| - 1]);
      assert forall c :: c in t[..|t| - 1] ==> c in t;
    }
  }

  lemma {:induction false} AfterLastDotChars(t: string)
    ensures forall c :: c in AfterLastDot(t) ==> c in t && c != '.'
  {
    if t != [] && t[|t| - 1] != '.' {
      AfterLastDotChars(t[..|t| - 1]);
      assert forall c :: c in t[..|t| - 1] ==> c in t;
    }
  }

  lemma {:induction false} BeforeLastDotChars(t: string)
    ensures forall c :: c in BeforeLastDot(t) ==> c in t
  {
    if t != [] {
      BeforeLastDotChars(t[..|t| - 1]);
      assert forall c :: c in t[..|t| - 1] ==> c in t;
    }
  }

  /** One more character of the group-name text: a '.' closes the pending
      segment as the group, CR and LF are skipped, anything else extends
      the pending segment. */
  lemma GroupStep(h: string, x: char)
    ensures x == '.' ==> LastGroup(h + [x]) == Pending(h) && Pending(h + [x]) == ""
    ensures x != '.' ==> LastGroup(h + [x]) == LastGroup(h)
    ensures x != '.' && (x == '\r' || x == '\n') ==> Pending(h + [x]) == Pending(h)
    ensures x != '.' && x != '\r' && x != '\n' ==> Pending(h + [x]) == Pending(h) + [x]
  {
    assert (h + [x])[..|h|] == h;
    if x != '.' {
      var a := AfterLastDot(h);
      assert AfterLastDot(h + [x]) == a + [x];
      assert (a + [x])[..|a|] == a;
      assert '.' in h + [x] <==> '.' in h;
    }
  }

  /** The group readGroupName keeps is the segment between the last two
      dots and its buffer the segment after the last one, both without CR
      and LF. */
  lemma {:induction false} ScanGroupMeaning(h: string)
    ensures ScanGroup(h) == GroupScan(LastGroup(h), Pending(h))
  {
    if h != [] {
      var init := h[..|h| - 1];
      ScanGroupMeaning(init);
      GroupStep(init, h[|h| - 1]);
      assert h == init + [h[|h| - 1]];
    }
  }

  // ---------------------------------------------------------------------
  // Parameters: `;NAME=V1,V2;NAME2...` up to the ':' that opens the value.

  /** The locals of readParams. */
  datatype ParamState = ParamState(params: map<string, seq<string>>, name: string, values: seq<string>, buf: string)

  const FreshParams := ParamState(map[], "", [], "")

  /** What a ';' or ':' does with the segment read so far: a name seen
      before '=' keeps the text since as last value, otherwise the text is
      the name and the value is ""; a non-empty name has its values added to
      any it already has. */
  function CloseSegment(st: ParamState): map<string, seq<string>> {
    var name := if st.name == "" then st.buf else st.name;
    var value := if st.name == "" then "" else st.buf;
    if name != "" then st.params[name := Lookup(st.params, name) + st.values + [value]]
    else st.params
  }

  /** CloseSegment as readParams writes it: the values, with the last one
      appended, are appended to an existing entry or make a new one. */
  lemma CloseSegmentInPlace(st: ParamState, name: string, value: string)
    requires name == (if st.name == "" then st.buf else st.name)
    requires value == (if st.name == "" then "" else st.buf)
    ensures name == "" ==> CloseSegment(st) == st.params
    ensures name != "" ==> CloseSegment(st) == st.params[name :=
      if name in st.params then st.params[name] + (st.values + [value]) else st.values + [value]]
  {
    assert Lookup(st.params, name) + st.values + [value] == Lookup(st.params, name) + (st.values + [value]);
    if name !in st.params {
      assert [] + (st.values + [value]) == st.values + [value];
    }
  }

  /** One character of the parameter section other than ':'. */
  function ParamStep(st: ParamState, c: char): ParamState {
    if c == ',' then st.(values := st.values + [st.buf], buf := "")
    else if c == ';' then ParamState(CloseSegment(st), "", [], "")
    else if c == '=' then st.(name := st.buf, buf := "")
    else st.(buf := st.buf + [c])
  }

  datatype ParamsRead = ParamsRead(params: map<string, seq<string>>, rest: nat)

  /** readParams from state `st` on `t`: it returns at the first ':' without
      reading it, having closed the open segment; at end of input it returns
      what it had, leaving the open segment unclosed. */
  function ScanParams(t: string, st: ParamState): (r: ParamsRead)
    ensures r.rest <= |t|
    ensures t != [] && t[0] != ':' ==> r.rest < |t|
  {
    if t == [] then ParamsRead(st.params, 0)
    else if t[0] == ':' then ParamsRead(CloseSegment(st), |t|)
    else ScanParams(t[1..], ParamStep(st, t[0]))
  }

  /** readParams stops at the first ':' and leaves it unread; without one it
      reads to the end. */
  lemma {:induction false} ScanParamsStops(t: string, st: ParamState)
    ensures var r := ScanParams(t, st);
      && (r.rest > 0 ==> t[|t| - r.rest] == ':')
      && (forall k :: 0 <= k < |t| - r.rest ==> t[k] != ':')
  {
    if t != [] && t[0] != ':' {
      ScanParamsStops(t[1..], ParamStep(st, t[0]));
      var r := ScanParams(t, st);
      assert forall k :: 1 <= k < |t| - r.rest ==> t[k] == t[1..][k - 1];
    }
  }

  /** No parameter name is ever empty. */
  lemma {:induction false} ParamNamesNonEmpty(t: string, st: ParamState)
    requires "" !in st.params
    ensures "" !in ScanParams(t, st).params
  {
    if t != [] && t[0] != ':' {
      ParamNamesNonEmpty(t[1..], ParamStep(st, t[0]));
    }
  }

  /** Text free of the characters that steer readParams. */
  predicate Plain(u: string) {
    forall c :: c in u ==> c != ',' && c != ';' && c != ':' && c != '='
  }

  /** One character other than ':' is one step of the loop. */
  lemma ParamStepAt(c: char, t: string, st: ParamState)
    requires c != ':'
    ensures ScanParams([c] + t, st) == ScanParams(t, ParamStep(st, c))
  {
    assert ([c] + t)[1..] == t;
  }

  /** Plain text only lengthens the buffer. */
  lemma {:induction false} ScanPlainParams(u: string, t: string, st: ParamState)
    requires Plain(u)
    ensures ScanParams(u + t, st) == ScanParams(t, st.(buf := st.buf + u))
  {
    if u == [] {
      assert u + t == t;
      assert st.buf + u == st.buf;
    } else {
      assert u[0] in u;
      assert forall c :: c in u[1..] ==> c in u;
      assert u + t == [u[0]] + (u[1..] + t);
      ParamStepAt(u[0], u[1..] + t, st);
      ScanPlainParams(u[1..], t, ParamStep(st, u[0]));
      assert st.buf + u == st.buf + [u[0]] + u[1..];
    }
  }

  /** A ',' and then plain text: the buffer becomes a value and the text
      the new buffer. */
  lemma CommaThenPlain(v: string, t: string, st: ParamState)
    requires Plain(v)
    ensures ScanParams([','] + (v + t), st)
         == ScanParams(t, st.(values := st.values + [st.buf], buf := v))
  {
    ParamStepAt(',', v + t, st);
    var st2 := ParamStep(st, ',');
    ScanPlainParams(v, t, st2);
    assert st2.buf + v == v;
  }

  /** Reading plain values joined by ",": all but the last are collected,
      the last stays in the buffer. */
  lemma {:induction false} ScanJoinedValues(vs: seq<string>, t: string, st: ParamState)
    requires |vs| > 0 && st.buf == ""
    requires forall i :: 0 <= i < |vs| ==> Plain(vs[i])
    ensures ScanParams(Join(vs) + t, st)
         == ScanParams(t, st.(values := st.values + vs[..|vs| - 1], buf := vs[|vs| - 1]))
  {
    var n := |vs| - 1;
    if n == 0 {
      assert Join(vs) == vs[0];
      ScanPlainParams(vs[0], t, st);
      assert st.buf + vs[0] == vs[0];
      assert st.values + vs[..0] == st.values;
    } else {
      var init := vs[..n];
      assert Join(vs) + t == Join(init) + ([','] + (vs[n] + t)) by {
        assert Join(vs) == Join(init) + "," + vs[n];
      }
      var st1 := st.(values := st.values + init[..n - 1], buf := init[n - 1]);
      assert ScanParams(Join(vs) + t, st) == ScanParams([','] + (vs[n] + t), st1) by {
        ScanJoinedValues(init, [','] + (vs[n] + t), st);
      }
      CommaThenPlain(vs[n], t, st1);
      assert st1.values + [st1.buf] == st.values + vs[..n] by {
        assert init[..n - 1] + [init[n - 1]] == vs[..n];
      }
    }
  }

  /** A segment `;NAME=` read from a closed state leaves NAME as the
      pending name and nothing else. */
  lemma SegmentHead(name: string, rest: string, st: ParamState)
    requires Plain(name) && st.name == "" && st.values == [] && st.buf == ""
    ensures ScanParams(";" + name + "=" + rest, st) == ScanParams(rest, st.(name := name))
  {
    assert ";" + name + "=" + rest == [';'] + (name + (['='] + rest));
    ParamStepAt(';', name + (['='] + rest), st);
    assert ParamStep(st, ';') == st;
    ScanPlainParams(name, ['='] + rest, st);
    assert "" + name == name;
    ParamStepAt('=', rest, st.(buf := name));
  }

  /** The ':' closing a segment `NAME=V1,...,Vn`. */
  lemma SegmentValues(name: string, vs: seq<string>, st: ParamState)
    requires name != "" && st.values == [] && st.buf == "" && st.name == name
    requires |vs| > 0 && forall i :: 0 <= i < |vs| ==> Plain(vs[i])
    ensures ScanParams(Join(vs) + ":", st) == ParamsRead(st.params[name := Lookup(st.params, name) + vs], 1)
  {
    var n := |vs| - 1;
    var st4 := st.(values := vs[..n], buf := vs[n]);
    assert ScanParams(Join(vs) + ":", st) == ScanParams(":", st4) by {
      ScanJoinedValues(vs, ":", st);
      assert st.values + vs[..n] == vs[..n];
    }
    assert CloseSegment(st4) == st.params[name := Lookup(st.params, name) + vs] by {
      assert vs[..n] + [vs[n]] == vs;
      assert Lookup(st.params, name) + vs[..n] + [vs[n]] == Lookup(st.params, name) + vs;
    }
  }

  /** `;NAME=V1,...,Vn:` yields exactly `NAME -> [V1, ..., Vn]`. */
  lemma NamedParam(name: string, vs: seq<string>, params: map<string, seq<string>>)
    requires name != "" && Plain(name)
    requires |vs| > 0 && forall i :: 0 <= i < |vs| ==> Plain(vs[i])
    ensures ScanParams(";" + name + "=" + Join(vs) + ":", FreshParams.(params := params))
         == ParamsRead(params[name := Lookup(params, name) + vs], 1)
  {
    var st0 := FreshParams.(params := params);
    assert ";" + name + "=" + Join(vs) + ":" == ";" + name + "=" + (Join(vs) + ":");
    SegmentHead(name, Join(vs) + ":", st0);
    SegmentValues(name, vs, st0.(name := name));
  }

  /** `;NAME:` (no '=') yields `NAME -> [""]`. */
  lemma BareParam(name: string, params: map<string, seq<string>>)
    requires name != "" && Plain(name)
    ensures ScanParams(";" + name + ":", FreshParams.(params := params))
         == ParamsRead(params[name := Lookup(params, name) + [""]], 1)
  {
    var st0 := FreshParams.(params := params);
    assert ";" + name + ":" == [';'] + (name + ":");
    ParamStepAt(';', name + ":", st0);
    assert ParamStep(st0, ';') == st0;
    ScanPlainParams(name, ":", st0);
    var st1 := st0.(buf := "" + name);
    assert st1.buf == name;
    assert CloseSegment(st1) == params[name := Lookup(params, name) + [] + [""]];
    assert Lookup(params, name) + [] + [""] == Lookup(params, name) + [""];
  }

  /** A ';' closes the open segment and leaves a fresh state. */
  lemma SemicolonCloses(u: string, st: ParamState)
    requires |u| > 0 && u[0] == ';'
    ensures ScanParams(u, st) == ScanParams(u, FreshParams.(params := CloseSegment(st)))
  {
    assert u == [';'] + u[1..];
    ParamStepAt(';', u[1..], st);
    ParamStepAt(';', u[1..], FreshParams.(params := CloseSegment(st)));
  }

  /** A segment `;NAME=V` closed by the ';' of the next one. */
  lemma SegmentThenNext(name: string, v: string, u: string, params: map<string, seq<string>>)
    requires name != "" && Plain(name) && Plain(v) && |u| > 0 && u[0] == ';'
    ensures ScanParams(";" + name + "=" + v + u, FreshParams.(params := params))
         == ScanParams(u, FreshParams.(params := params[name := Lookup(params, name) + [v]]))
  {
    var st0 := FreshParams.(params := params);
    Assoc(";" + name + "=", v, u);
    SegmentHead(name, v + u, st0);
    var st1 := st0.(name := name);
    ScanPlainParams(v, u, st1);
    var st2 := st1.(buf := st1.buf + v);
    SemicolonCloses(u, st2);
    assert CloseSegment(st2) == params[name := Lookup(params, name) + [v]] by {
      assert st2.buf == v;
      assert Lookup(params, name) + [] + [v] == Lookup(params, name) + [v];
    }
  }

  /** The text of one parameter segment `;NAME=V`. */
  function Segment(name: string, v: string): string {
    ";" + name + "=" + v
  }

  /** A repeated parameter name concatenates its values in order. */
  lemma RepeatedParamMerges(name: string, a: string, b: string)
    requires name != "" && Plain(name) && Plain(a) && Plain(b)
    ensures ScanParams(Segment(name, a) + Segment(name, b) + ":", FreshParams).params
         == map[name := [a, b]]
  {
    var m := map[name := [a]];
    var u := Segment(name, b) + ":";
    assert u == ";" + name + "=" + Join([b]) + ":" by {
      assert Join([b]) == b;
    }
    Assoc(Segment(name, a), Segment(name, b), ":");
    assert ScanParams(Segment(name, a) + u, FreshParams) == ScanParams(u, FreshParams.(params := m)) by {
      var e: map<string, seq<string>> := map[];
      SegmentThenNext(name, a, u, e);
      assert FreshParams.(params := e) == FreshParams;
      assert Lookup(e, name) + [a] == [a];
      assert e[name := Lookup(e, name) + [a]] == m;
    }
    NamedParam(name, [b], m);
    assert Lookup(m, name) + [b] == [a, b];
    assert m[name := Lookup(m, name) + [b]] == map[name := [a, b]];
  }

  // ---------------------------------------------------------------------
  // Values: components split on ';', sub-values on ',', with escapes and
  // unfolding of lines continued by a space or tab.

  /** The locals of readValues. */
  datatype ValueState = ValueState(values: seq<seq<string>>, val: seq<string>, buf: string, escape: bool)

  const FreshValues := ValueState([], [], "", false)

  /** What readValues does with one character once line ends are handled. */
  function Consume(st: ValueState, c: char): ValueState {
    if c == '\\' then st.(escape := true)
    else if st.escape then st.(buf := st.buf + [if c == 'n' || c == 'N' then '\n' else c], escape := false)
    else if c == ',' then
      if |st.buf| > 0 then st.(val := st.val + [st.buf], buf := "") else st
    else if c == ';' then
      st.(values := st.values + [st.val + (if |st.buf| > 0 then [st.buf] else [])], val := [], buf := "")
    else if c != '\n' && c != '\r' then st.(buf := st.buf + [c])
    else st
  }

  /** The value list readValues returns at a terminating line feed. */
  function Flush(st: ValueState): seq<seq<string>> {
    st.values + [st.val + (if |st.buf| > 0 then [st.buf] else [])]
  }

  predicate Blank(c: char) {
    c == ' ' || c == '\t'
  }

  /** First index at or after `k` that is not a space or tab, or the length. */
  function SkipBlanks(t: string, k: nat): (q: nat)
    requires k <= |t|
    ensures k <= q <= |t|
    ensures forall j :: k <= j < q ==> Blank(t[j])
    ensures q < |t| ==> !Blank(t[q])
    decreases |t| - k
  {
    if k < |t| && Blank(t[k]) then SkipBlanks(t, k + 1) else k
  }

  datatype ValuesRead = ValuesRead(values: seq<seq<string>>, rest: nat)

  /** readValues from state `st` on `t`, where `t[0]` is the character it has
      just taken. A line feed followed by anything but space or tab ends the
      value after flushing buffer and component; one followed by space or tab
      is dropped with all the blanks after it, and the next character is then
      taken as is; at end of input the pending buffer and component are
      dropped. */
  function ScanValues(t: string, st: ValueState): (r: ValuesRead)
    ensures r.rest < |t| || (t == [] && r.rest == 0)
    decreases |t|
  {
    if t == [] then ValuesRead(st.values, 0)
    else if t[0] == '\n' then
      if |t| == 1 || !Blank(t[1]) then ValuesRead(Flush(st), |t| - 1)
      else
        var q := SkipBlanks(t, 1);
        if q == |t| then ValuesRead(st.values, 0)
        else ScanValues(t[q + 1..], Consume(st, t[q]))
    else ScanValues(t[1..], Consume(st, t[0]))
  }

  /** Every sub-value is non-empty and holds no backslash. */
  predicate CleanValues(v: seq<seq<string>>) {
    forall i, j :: 0 <= i < |v| && 0 <= j < |v[i]| ==> v[i][j] != "" && '\\' !in v[i][j]
  }

  /** All sub-values are non-empty and free of backslashes, and so is the buffer. */
  predicate Clean(st: ValueState) {
    && CleanValues(st.values)
    && (forall j :: 0 <= j < |st.val| ==> st.val[j] != "" && '\\' !in st.val[j])
    && '\\' !in st.buf
  }

  lemma ConsumeKeepsClean(st: ValueState, c: char)
    requires Clean(st)
    ensures Clean(Consume(st, c))
  {
    var r := Consume(st, c);
    if c != '\\' && !st.escape && c == ';' {
      var row := st.val + (if |st.buf| > 0 then [st.buf] else []);
      assert r.values == st.values + [row];
      assert forall j :: 0 <= j < |row| ==> row[j] != "" && '\\' !in row[j];
    }
  }

  /** Every decoded sub-value is non-empty and no decoded value holds a
      backslash: empty pieces are dropped and a backslash always arms the
      escape instead of being kept. */
  lemma {:induction false} DecodedValuesClean(t: string, st: ValueState)
    requires Clean(st)
    ensures CleanValues(ScanValues(t, st).values)
    decreases |t|
  {
    if t != [] {
      if t[0] == '\n' {
        if |t| == 1 || !Blank(t[1]) {
          var row := st.val + (if |st.buf| > 0 then [st.buf] else []);
          assert Flush(st) == st.values + [row];
          assert forall j :: 0 <= j < |row| ==> row[j] != "" && '\\' !in row[j];
        } else {
          var q := SkipBlanks(t, 1);
          if q < |t| {
            assert ScanValues(t, st) == ScanValues(t[q + 1..], Consume(st, t[q]));
            ConsumeKeepsClean(st, t[q]);
            DecodedValuesClean(t[q + 1..], Consume(st, t[q]));
          } else {
            assert ScanValues(t, st).values == st.values;
          }
        }
      } else {
        ConsumeKeepsClean(st, t[0]);
        DecodedValuesClean(t[1..], Consume(st, t[0]));
      }
    }
  }

  /** Consuming a whole text in which no line feed occurs. */
  function ConsumeAll(st: ValueState, t: string): ValueState
    decreases |t|
  {
    if t == [] then st else ConsumeAll(Consume(st, t[0]), t[1..])
  }

  /** Without a line feed the value never ends: at end of input only the
      components already closed by ';' are returned; the pending buffer and
      component are lost. */
  lemma {:induction false} UnterminatedDropsPending(t: string, st: ValueState)
    requires '\n' !in t
    ensures ScanValues(t, st) == ValuesRead(ConsumeAll(st, t).values, 0)
    decreases |t|
  {
    if t != [] {
      assert t[0] in t;
      assert forall c :: c in t[1..] ==> c in t;
      UnterminatedDropsPending(t[1..], Consume(st, t[0]));
    }
  }

  /** So text without separators and without a line feed decodes to no
      components at all. */
  lemma {:induction false} UnterminatedTextIsLost(u: string, st: ValueState)
    requires st.values == [] && !st.escape
    requires forall c :: c in u ==> c != '\n' && c != '\\' && c != ';'
    ensures ScanValues(u, st).values == []
    decreases |u|
  {
    if u != [] {
      assert u[0] in u;
      assert forall c :: c in u[1..] ==> c in u;
      UnterminatedTextIsLost(u[1..], Consume(st, u[0]));
    }
  }

  /** A line feed followed by blanks is removed with all of them; scanning
      resumes at the first other character, which must not be a line feed
      for the two to agree. */
  lemma Unfold(blanks: string, x: string, st: ValueState)
    requires |blanks| > 0 && forall j :: 0 <= j < |blanks| ==> Blank(blanks[j])
    requires x != [] && !Blank(x[0]) && x[0] != '\n'
    ensures ScanValues("\n" + blanks + x, st) == ScanValues(x, st)
  {
    var t := "\n" + blanks + x;
    assert t[1] == blanks[0];
    assert forall j :: 1 <= j < |blanks| + 1 ==> t[j] == blanks[j - 1];
    assert t[|blanks| + 1] == x[0];
    assert SkipBlanks(t, 1) == |blanks| + 1 by {
      SkipBlanksAt(t, 1, |blanks| + 1);
    }
    assert t[|blanks| + 2..] == x[1..];
  }

  lemma {:induction false} SkipBlanksAt(t: string, k: nat, q: nat)
    requires k <= q <= |t|
    requires forall j :: k <= j < q ==> Blank(t[j])
    requires q < |t| ==> !Blank(t[q])
    ensures SkipBlanks(t, k) == q
    decreases q - k
  {
    if k < q {
      SkipBlanksAt(t, k + 1, q);
    }
  }

  /** A line feed followed by blanks up to index `q`: at the end of input
      the pending buffer and component are dropped; otherwise the character
      at `q` is taken as is, whatever it is. */
  lemma ValuesUnfoldAt(u: string, q: nat, st: ValueState)
    requires |u| > 1 && u[0] == '\n' && Blank(u[1])
    requires 1 < q <= |u| && (forall j :: 1 <= j < q ==> Blank(u[j])) && (q < |u| ==> !Blank(u[q]))
    ensures q == |u| ==> ScanValues(u, st) == ValuesRead(st.values, 0)
    ensures q < |u| ==> ScanValues(u, st) == ScanValues(u[q + 1..], Consume(st, u[q]))
  {
    SkipBlanksAt(u, 1, q);
  }

  /** A line feed not followed by space or tab ends the value, and a bare
      carriage return is skipped. */
  lemma LineEnds(x: string, st: ValueState)
    ensures (x == [] || !Blank(x[0])) ==> ScanValues("\n" + x, st) == ValuesRead(Flush(st), |x|)
    ensures !st.escape ==> ScanValues("\r" + x, st) == ScanValues(x, st)
  {
    assert ("\n" + x)[1..] == x;
    assert ("\r" + x)[1..] == x;
  }

  /** A backslash and the character after it: `n` and `N` give a line
      feed, any other character but a backslash or line feed is kept as it
      is, whatever its role unescaped. */
  lemma EscapeDecodes(c: char, t: string, st: ValueState)
    requires !st.escape && c != '\\' && c != '\n'
    ensures ScanValues(['\\', c] + t, st)
         == ScanValues(t, st.(buf := st.buf + [if c == 'n' || c == 'N' then '\n' else c]))
  {
    assert (['\\', c] + t)[1..] == [c] + t;
    assert ([c] + t)[1..] == t;
  }

  // ---------------------------------------------------------------------
  // Splitting: an unescaped ';' closes a component, an unescaped ','
  // closes a sub-value.

  /** A sub-value readValues keeps as it is: non-empty, with no escape,
      separator or line break in it. */
  predicate Piece(v: string) {
    v != "" && forall c :: c in v ==> c != '\\' && c != ',' && c != ';' && c != '\r' && c != '\n'
  }

  /** Every sub-value of every component is a Piece. */
  predicate Pieces(rows: seq<seq<string>>) {
    forall i, j :: 0 <= i < |rows| && 0 <= j < |rows[i]| ==> Piece(rows[i][j])
  }

  /** The text of a value with components `rows`: each component's
      sub-values joined by ',', the components joined by ';'. */
  function JoinRows(rows: seq<seq<string>>): string
    decreases |rows|
  {
    if rows == [] then ""
    else if |rows| == 1 then Join(rows[0])
    else Join(rows[0]) + ";" + JoinRows(rows[1..])
  }

  /** Consuming `a + b` is consuming `a`, then `b`. */
  lemma {:induction false} ConsumeAllAppend(st: ValueState, a: string, b: string)
    ensures ConsumeAll(st, a + b) == ConsumeAll(ConsumeAll(st, a), b)
    decreases |a|
  {
    if a != [] {
      assert (a + b)[1..] == a[1..] + b;
      ConsumeAllAppend(Consume(st, a[0]), a[1..], b);
    } else {
      assert a + b == b;
    }
  }

  /** Text without a line feed is consumed character by character. */
  lemma {:induction false} ScanThrough(u: string, t: string, st: ValueState)
    requires '\n' !in u
    ensures ScanValues(u + t, st) == ScanValues(t, ConsumeAll(st, u))
    decreases |u|
  {
    if u != [] {
      assert u[0] in u;
      assert forall c :: c in u[1..] ==> c in u;
      assert (u + t)[1..] == u[1..] + t;
      ScanThrough(u[1..], t, Consume(st, u[0]));
    } else {
      assert u + t == t;
    }
  }

  /** A sub-value only lengthens the buffer. */
  lemma {:induction false} PieceConsumed(v: string, st: ValueState)
    requires !st.escape
    requires forall c :: c in v ==> c != '\\' && c != ',' && c != ';' && c != '\r' && c != '\n'
    ensures ConsumeAll(st, v) == st.(buf := st.buf + v)
    decreases |v|
  {
    if v != [] {
      assert v[0] in v;
      assert forall c :: c in v[1..] ==> c in v;
      PieceConsumed(v[1..], Consume(st, v[0]));
      assert st.buf + [v[0]] + v[1..] == st.buf + v by {
        assert v == [v[0]] + v[1..];
      }
    }
  }

  /** Sub-values joined by ',': all but the last are collected into the
      open component, the last stays in the buffer. */
  lemma {:induction false} RowConsumed(vs: seq<string>, st: ValueState)
    requires !st.escape && st.buf == ""
    requires forall j :: 0 <= j < |vs| ==> Piece(vs[j])
    ensures vs == [] ==> ConsumeAll(st, Join(vs)) == st
    ensures vs != [] ==> ConsumeAll(st, Join(vs)) == st.(val := st.val + vs[..|vs| - 1], buf := vs[|vs| - 1])
    decreases |vs|
  {
    var n := |vs| - 1;
    if n == 0 {
      PieceConsumed(vs[0], st);
      assert st.val + vs[..0] == st.val;
    } else if n > 0 {
      var init := vs[..n];
      var st1 := st.(val := st.val + init[..n - 1], buf := init[n - 1]);
      assert ConsumeAll(st, Join(init)) == st1 by {
        RowConsumed(init, st);
      }
      var st2 := st.(val := st.val + vs[..n], buf := "");
      assert Consume(st1, ',') == st2 by {
        assert init[n - 1] != "";
        assert init[..n - 1] + [init[n - 1]] == vs[..n];
      }
      assert ConsumeAll(st1, ",") == st2;
      PieceConsumed(vs[n], st2);
      assert ConsumeAll(st, Join(vs)) == ConsumeAll(ConsumeAll(ConsumeAll(st, Join(init)), ","), vs[n]) by {
        ConsumeAllAppend(st, Join(init), ",");
        ConsumeAllAppend(st, Join(init) + ",", vs[n]);
      }
    }
  }

  /** The component a row of sub-values leaves open, as ';' or the final
      line feed closes it. */
  lemma RowCloses(vs: seq<string>, st: ValueState)
    requires !st.escape && st.buf == "" && st.val == []
    requires forall j :: 0 <= j < |vs| ==> Piece(vs[j])
    ensures Consume(ConsumeAll(st, Join(vs)), ';') == FreshValues.(values := st.values + [vs])
    ensures Flush(ConsumeAll(st, Join(vs))) == st.values + [vs]
    ensures !ConsumeAll(st, Join(vs)).escape
  {
    RowConsumed(vs, st);
    if vs != [] {
      assert vs[|vs| - 1] != "";
      LastSplit(vs);
    }
  }

  lemma LastSplit<T>(s: seq<T>)
    requires s != []
    ensures [] + s[..|s| - 1] + [s[|s| - 1]] == s
  {
  }

  /** Components joined by ';' are collected one after the other; the last
      stays open. */
  lemma {:induction false} RowsConsumed(rows: seq<seq<string>>, st: ValueState)
    requires rows != [] && Pieces(rows)
    requires !st.escape && st.buf == "" && st.val == []
    ensures Flush(ConsumeAll(st, JoinRows(rows))) == st.values + rows
    ensures !ConsumeAll(st, JoinRows(rows)).escape
    decreases |rows|
  {
    RowCloses(rows[0], st);
    if |rows| > 1 {
      var st1 := FreshValues.(values := st.values + [rows[0]]);
      RowsStep(rows, st);
      assert Pieces(rows[1..]) by {
        PiecesTail(rows);
      }
      RowsConsumed(rows[1..], st1);
      HeadTailRows(st.values, rows);
    }
  }

  /** Consuming the first component and its ';'. */
  lemma RowsStep(rows: seq<seq<string>>, st: ValueState)
    requires |rows| > 1
    ensures ConsumeAll(st, JoinRows(rows))
         == ConsumeAll(Consume(ConsumeAll(st, Join(rows[0])), ';'), JoinRows(rows[1..]))
  {
    ConsumeAllAppend(st, Join(rows[0]), ";");
    ConsumeAllAppend(st, Join(rows[0]) + ";", JoinRows(rows[1..]));
  }

  lemma PiecesTail(rows: seq<seq<string>>)
    requires rows != [] && Pieces(rows)
    ensures Pieces(rows[1..])
  {
    forall i, j | 0 <= i < |rows| - 1 && 0 <= j < |rows[1..][i]|
      ensures Piece(rows[1..][i][j])
    {
      assert rows[1..][i] == rows[i + 1];
    }
  }

  lemma HeadTailRows(done: seq<seq<string>>, rows: seq<seq<string>>)
    requires rows != []
    ensures done + [rows[0]] + rows[1..] == done + rows
  {
    assert [rows[0]] + rows[1..] == rows;
  }

  lemma {:induction false} JoinNoLineFeed(vs: seq<string>)
    requires forall j :: 0 <= j < |vs| ==> Piece(vs[j])
    ensures '\n' !in Join(vs)
    decreases |vs|
  {
    if |vs| > 1 {
      JoinNoLineFeed(vs[..|vs| - 1]);
    }
  }

  lemma {:induction false} JoinRowsNoLineFeed(rows: seq<seq<string>>)
    requires Pieces(rows)
    ensures '\n' !in JoinRows(rows)
    decreases |rows|
  {
    if rows != [] {
      JoinNoLineFeed(rows[0]);
      JoinRowsNoLineFeed(rows[1..]);
    }
  }

  /** A CR before the final line feed changes nothing. */
  lemma CrSkipped(u: string, x: string)
    requires '\n' !in u && !ConsumeAll(FreshValues, u).escape
    ensures ScanValues(u + "\r\n" + x, FreshValues) == ScanValues(u + "\n" + x, FreshValues)
  {
    var st := ConsumeAll(FreshValues, u);
    calc {
      ScanValues(u + "\r\n" + x, FreshValues);
      { Assoc(u, "\r\n", x); ScanThrough(u, "\r\n" + x, FreshValues); }
      ScanValues("\r\n" + x, st);
      { assert "\r\n" + x == "\r" + ("\n" + x); LineEnds("\n" + x, st); }
      ScanValues("\n" + x, st);
      { Assoc(u, "\n", x); ScanThrough(u, "\n" + x, FreshValues); }
      ScanValues(u + "\n" + x, FreshValues);
    }
  }

  /** readValues splits on the unescaped separators: components joined by
      ';', their sub-values by ',', and ended by a line feed that does not
      start a continuation line, are read back as those components, and
      reading stops right after the line feed; a CR before it is skipped.
      An empty component (nothing between two ';') is read back as an empty
      component. */
  lemma SplitsValues(rows: seq<seq<string>>, x: string)
    requires rows != [] && Pieces(rows)
    requires x == [] || !Blank(x[0])
    ensures ScanValues(JoinRows(rows) + "\n" + x, FreshValues) == ValuesRead(rows, |x|)
    ensures ScanValues(JoinRows(rows) + "\r\n" + x, FreshValues) == ValuesRead(rows, |x|)
  {
    var u := JoinRows(rows);
    JoinRowsNoLineFeed(rows);
    RowsConsumed(rows, FreshValues);
    LastLine(u, x);
    CrSkipped(u, x);
    EmptyPrefix(rows);
  }

  lemma EmptyPrefix(rows: seq<seq<string>>)
    ensures [] + rows == rows
  {
  }

  /** Text without a line feed, then the line feed that ends the value. */
  lemma LastLine(u: string, x: string)
    requires '\n' !in u && (x == [] || !Blank(x[0]))
    ensures ScanValues(u + "\n" + x, FreshValues) == ValuesRead(Flush(ConsumeAll(FreshValues, u)), |x|)
  {
    calc {
      ScanValues(u + "\n" + x, FreshValues);
      { Assoc(u, "\n", x); ScanThrough(u, "\n" + x, FreshValues); }
      ScanValues("\n" + x, ConsumeAll(FreshValues, u));
      { LineEnds(x, ConsumeAll(FreshValues, u)); }
      ValuesRead(Flush(ConsumeAll(FreshValues, u)), |x|);
    }
  }

  // ---------------------------------------------------------------------
  // Whole properties and the card they fill.

  datatype PropRead = PropRead(prop: PropData, rest: nat)

  /** The parameters of a property whose name stopped at index `i` of `t`:
      read only when the name ended at ';'. */
  function ParamsOf(t: string, i: nat): (r: ParamsRead)
    requires i <= |t|
    ensures r.rest <= |t| - i
  {
    if i < |t| && t[i] == ';' then ScanParams(t[i..], FreshParams) else ParamsRead(map[], |t| - i)
  }

  /** Where the value starts once the parameters stopped at index `j`: one
      character (the ':') is taken unless the input is exhausted. */
  function ValueStart(t: string, j: nat): (k: nat)
    requires j <= |t|
    ensures k <= |t|
  {
    if j < |t| then j + 1 else j
  }

  /** ReadProp on non-empty `t`: group and name, then the parameters, then
      one character, then the value. */
  function ReadProp(t: string): (r: PropRead)
    requires t != []
    ensures r.rest < |t|
  {
    var gn := ReadGroupName(t);
    var pr := ParamsOf(t, |t| - gn.rest);
    var vr := ScanValues(t[ValueStart(t, |t| - pr.rest)..], FreshValues);
    PropRead(PropData(gn.group, gn.name, pr.params, vr.values), vr.rest)
  }

  /** ReadProp in terms of what each stage returned and the indices at
      which each stopped. */
  lemma ReadPropStages(t: string, i: nat, j: nat, k: nat, group: string, name: string,
                       params: map<string, seq<string>>, values: seq<seq<string>>, rest: nat)
    requires t != [] && i == |t| - ReadGroupName(t).rest
    requires group == ReadGroupName(t).group && name == ReadGroupName(t).name
    requires i <= |t| && j == |t| - ParamsOf(t, i).rest && params == ParamsOf(t, i).params
    requires k == ValueStart(t, j)
    requires values == ScanValues(t[k..], FreshValues).values && rest == ScanValues(t[k..], FreshValues).rest
    ensures ReadProp(t) == PropRead(PropData(group, name, params, values), rest)
  {
  }

  /** Every property Decode reads from `t`, in stream order. */
  function ReadAll(t: string): seq<PropData>
    decreases |t|
  {
    if t == [] then []
    else
      var r := ReadProp(t);
      [r.prop] + ReadAll(t[|t| - r.rest..])
  }

  /** Reading one property from `src[p0..]` that leaves the scanner at `p1`
      puts that property in front of everything read from `src[p1..]`. */
  lemma ReadAllAfter(src: string, p0: nat, p1: nat, d: PropData)
    requires p0 < p1 <= |src|
    requires ReadProp(src[p0..]) == PropRead(d, |src| - p1)
    ensures ReadAll(src[p0..]) == [d] + ReadAll(src[p1..])
  {
    var t := src[p0..];
    assert t != [] by {
      assert |t| == |src| - p0;
    }
    var u := t[|t| - ReadProp(t).rest..];
    assert u == src[p1..] by {
      SuffixOfSuffix(src, p0, p1);
    }
    calc {
      ReadAll(t);
      { ReadAllCons(t); }
      [ReadProp(t).prop] + ReadAll(u);
      [d] + ReadAll(src[p1..]);
    }
  }

  lemma ReadAllCons(t: string)
    requires t != []
    ensures ReadAll(t) == [ReadProp(t).prop] + ReadAll(t[|t| - ReadProp(t).rest..])
  {
  }

  lemma SuffixOfSuffix(src: string, p0: nat, p1: nat)
    requires p0 <= p1 <= |src|
    ensures src[p0..][p1 - p0..] == src[p1..]
  {
  }

  /** Moving the next element from the pending part to the done part. */
  lemma Shift<T>(done: seq<T>, x: T, y: T, pending: seq<T>, later: seq<T>, all: seq<T>)
    requires done + [x] + pending == all && pending == [y] + later
    ensures (done + [x]) + [y] + later == all
  {
    assert (done + [x]) + [y] + later == (done + [x]) + ([y] + later);
  }

  /** Decode's card: each property appended under its own name, in order. */
  function Collect(acc: map<string, seq<PropData>>, ps: seq<PropData>): map<string, seq<PropData>>
    decreases |ps|
  {
    if ps == [] then acc else Collect(Appended(acc, ps[0].name, ps[0]), ps[1..])
  }

  /** Collecting one more property appends it under its name. */
  lemma {:induction false} CollectSnoc(acc: map<string, seq<PropData>>, ps: seq<PropData>, x: PropData)
    ensures Collect(acc, ps + [x]) == Appended(Collect(acc, ps), x.name, x)
    decreases |ps|
  {
    if ps == [] {
      assert [] + [x] == [x] && [x][1..] == [];
    } else {
      assert (ps + [x])[1..] == ps[1..] + [x];
      CollectSnoc(Appended(acc, ps[0].name, ps[0]), ps[1..], x);
    }
  }

  /** The properties of `ps` named `k`, in order. */
  function Named(ps: seq<PropData>, k: string): seq<PropData> {
    if ps == [] then []
    else (if ps[0].name == k then [ps[0]] else []) + Named(ps[1..], k)
  }

  function Names(ps: seq<PropData>): set<string> {
    set i | 0 <= i < |ps| :: ps[i].name
  }

  lemma NamesCons(ps: seq<PropData>)
    requires ps != []
    ensures Names(ps) == {ps[0].name} + Names(ps[1..])
  {
    forall x | x in Names(ps) ensures x in {ps[0].name} + Names(ps[1..]) {
      var i :| 0 <= i < |ps| && ps[i].name == x;
      if i > 0 { assert ps[1..][i - 1].name == x; }
    }
    forall x | x in Names(ps[1..]) ensures x in Names(ps) {
      var i :| 0 <= i < |ps| - 1 && ps[1..][i].name == x;
      assert ps[i + 1].name == x;
    }
  }

  /** The card's names are the starting names and those of the stream. */
  lemma {:induction false} CollectKeys(acc: map<string, seq<PropData>>, ps: seq<PropData>)
    ensures Collect(acc, ps).Keys == acc.Keys + Names(ps)
    decreases |ps|
  {
    if ps != [] {
      var acc' := Appended(acc, ps[0].name, ps[0]);
      CollectKeys(acc', ps[1..]);
      NamesCons(ps);
      assert acc'.Keys == acc.Keys + {ps[0].name};
    }
  }

  /** Under each name the card holds exactly the properties of that name, in
      stream order; structural lines such as BEGIN and END are no exception. */
  lemma {:induction false} CollectByName(acc: map<string, seq<PropData>>, ps: seq<PropData>)
    ensures forall k :: Lookup(Collect(acc, ps), k) == Lookup(acc, k) + Named(ps, k)
  {
    forall k ensures Lookup(Collect(acc, ps), k) == Lookup(acc, k) + Named(ps, k) {
      CollectUnder(acc, ps, k);
    }
  }

  /** CollectByName for one name. */
  lemma {:induction false} CollectUnder(acc: map<string, seq<PropData>>, ps: seq<PropData>, k: string)
    ensures Lookup(Collect(acc, ps), k) == Lookup(acc, k) + Named(ps, k)
    decreases |ps|
  {
    if ps != [] {
      var acc' := Appended(acc, ps[0].name, ps[0]);
      CollectUnder(acc', ps[1..], k);
      var head := if ps[0].name == k then [ps[0]] else [];
      assert Lookup(acc', k) == Lookup(acc, k) + head;
      assert Named(ps, k) == head + Named(ps[1..], k);
    }
  }

}
