/** The encoder: writes a Card as text. Each method returns the text it
    writes to the `io.Writer`, in order; the writer never fails. */
module Encoding {
  import opened Strings
  import opened Properties
  import opened Cards

  const Begin := "BEGIN:VCARD\r\n"
  const End := "END:VCARD\r\n"
  const MissingVersion := "VCARD: Version property missing"

  /** WriteValue starts a continuation line after this many characters. */
  const FoldWidth := 76
  /** What WriteValue writes before the character that overflows a line. */
  const FoldBreak := "\n  "

  // ---------------------------------------------------------------------
  // Values.

  /** How WriteValue writes one character: CR, LF, ';', ':' and ',' get a
      backslash (CR and LF as `\r` and `\n`), everything else is written
      as is. */
  function Esc(c: char): string {
    if c == '\r' then "\\r"
    else if c == '\n' then "\\n"
    else if c == ';' then "\\;"
    else if c == ':' then "\\:"
    else if c == ',' then "\\,"
    else [c]
  }

  /** Every character escaped, without any line break. */
  function Escaped(s: string): string {
    if s == [] then "" else Esc(s[0]) + Escaped(s[1..])
  }

  /** What WriteValue writes for `s` when its counter stands at `i`: once
      the counter reaches FoldWidth a break is written and the counter
      starts again. */
  function Fold(s: string, i: nat): string
    requires i <= FoldWidth
    decreases |s|
  {
    if s == [] then ""
    else
      var brk := i == FoldWidth;
      (if brk then FoldBreak else "") + Esc(s[0]) + Fold(s[1..], (if brk then 0 else i) + 1)
  }

  /** The text WriteValue writes for `s`. */
  function Folded(s: string): string {
    Fold(s, 0)
  }

  /** The same text by a second definition: chunks of FoldWidth characters,
      each escaped, separated by FoldBreak. */
  function Chunked(s: string): string
    decreases |s|
  {
    if |s| <= FoldWidth then Escaped(s)
    else Escaped(s[..FoldWidth]) + FoldBreak + Chunked(s[FoldWidth..])
  }

  lemma EscapedCons(s: string, m: nat)
    requires 0 < m <= |s|
    ensures Escaped(s[..m]) == Esc(s[0]) + Escaped(s[1..m])
  {
    assert s[..m][1..] == s[1..m];
  }

  /** With the counter at `i`, the first break comes after FoldWidth - i
      characters, and after it the counter starts from zero. */
  lemma {:induction false} FoldAt(s: string, i: nat)
    requires i <= FoldWidth
    ensures |s| <= FoldWidth - i ==> Fold(s, i) == Escaped(s)
    ensures |s| > FoldWidth - i ==>
      Fold(s, i) == Escaped(s[..FoldWidth - i]) + FoldBreak + Fold(s[FoldWidth - i..], 0)
    decreases |s|
  {
    if s == [] {
    } else if i == FoldWidth {
      assert s[..0] == [] && s[0..] == s;
      assert Escaped([]) == "";
      assert Fold(s, 0) == "" + Esc(s[0]) + Fold(s[1..], 1);
    } else {
      var m := FoldWidth - i;
      var e := Esc(s[0]);
      var f := Fold(s[1..], i + 1);
      assert Fold(s, i) == e + f by {
        assert Fold(s, i) == "" + e + f;
      }
      if |s| > m {
        var e1 := Escaped(s[1..m]);
        var f2 := Fold(s[m..], 0);
        assert f == e1 + FoldBreak + f2 by {
          FoldAt(s[1..], i + 1);
          assert s[1..][..m - 1] == s[1..m];
          assert s[1..][m - 1..] == s[m..];
        }
        assert Escaped(s[..m]) == e + e1 by {
          EscapedCons(s, m);
        }
        Assoc(e, e1, FoldBreak);
        Assoc(e, e1 + FoldBreak, f2);
      } else {
        assert f == Escaped(s[1..]) by {
          FoldAt(s[1..], i + 1);
        }
      }
    }
  }

  /** WriteValue's text is the chunked text: the value is cut into pieces
      of FoldWidth characters joined by FoldBreak, each piece escaped. */
  lemma {:induction false} FoldedIsChunked(s: string)
    ensures Folded(s) == Chunked(s)
    decreases |s|
  {
    FoldAt(s, 0);
    if |s| > FoldWidth {
      FoldedIsChunked(s[FoldWidth..]);
    }
  }

  // ---------------------------------------------------------------------
  // Properties.

  /** `key=V1,V2,...` after a ';', or the bare key when it has no values. */
  function ParamText(key: string, vals: seq<string>): string {
    ";" + key + (if |vals| > 0 then "=" + Join(vals) else "")
  }

  /** The parameter section for the keys in the order the map yields them. */
  function ParamsText(params: map<string, seq<string>>, order: seq<string>): string {
    if order == [] then "" else ParamText(order[0], Lookup(params, order[0])) + ParamsText(params, order[1..])
  }

  /** `order` lists each key of `keys` exactly once: an order in which a Go
      map may be ranged over. */
  predicate Enumerates(order: seq<string>, keys: set<string>) {
    if order == [] then keys == {}
    else
      var k := order[|order| - 1];
      k in keys && Enumerates(order[..|order| - 1], keys - {k})
  }

  /** Enumerates is "distinct, and the same members". */
  lemma {:induction false} EnumeratesMeans(order: seq<string>, keys: set<string>)
    ensures Enumerates(order, keys) <==>
      && (forall i, j :: 0 <= i < j < |order| ==> order[i] != order[j])
      && (forall k :: k in order <==> k in keys)
  {
    if order != [] {
      var n := |order| - 1;
      var k := order[n];
      var init := order[..n];
      EnumeratesMeans(init, keys - {k});
      assert order == init + [k];
      assert forall x :: x in order <==> x in init || x == k;
      if (forall i, j :: 0 <= i < j < |order| ==> order[i] != order[j]) && (forall x :: x in order <==> x in keys) {
        assert k !in init;
        assert forall i, j :: 0 <= i < j < |init| ==> init[i] != init[j] by {
          forall i, j | 0 <= i < j < |init| ensures init[i] != init[j] {
            assert init[i] == order[i] && init[j] == order[j];
          }
        }
      }
      if Enumerates(order, keys) {
        forall i, j | 0 <= i < j < |order| ensures order[i] != order[j] {
          if j == n {
            assert order[i] in init;
          } else {
            assert init[i] == order[i] && init[j] == order[j];
          }
        }
      }
    }
  }

  /** Adding one more key that is not yet listed. */
  lemma EnumeratesSnoc(order: seq<string>, keys: set<string>, k: string)
    requires Enumerates(order, keys) && k !in keys
    ensures Enumerates(order + [k], keys + {k})
  {
    assert (order + [k])[..|order|] == order;
    assert (keys + {k}) - {k} == keys;
  }

  /** What the encoder sees of a property: its value and whether its
      parameter map is nil. */
  datatype Shown = Shown(data: PropData, nilParams: bool)

  function Show(p: Property): Shown
    reads p
  {
    Shown(p.Snap(), p.paramsNil)
  }

  function Shows(ps: seq<Property>): (r: seq<Shown>)
    reads ps
    ensures |r| == |ps|
  {
    if ps == [] then [] else Shows(ps[..|ps| - 1]) + [Show(ps[|ps| - 1])]
  }

  /** The parameter orders WriteProperty may use: none when the map is nil,
      otherwise every key once. */
  ghost predicate Fits(order: seq<string>, s: Shown) {
    if s.nilParams then order == [] else Enumerates(order, s.data.params.Keys)
  }

  /** `orders[i]` fits `ss[i]`, for every i. */
  ghost predicate AllFit(ss: seq<Shown>, orders: seq<seq<string>>) {
    |orders| == |ss| && (ss == [] || (AllFit(ss[..|ss| - 1], orders[..|ss| - 1]) && Fits(orders[|ss| - 1], ss[|ss| - 1])))
  }

  lemma {:induction false} AllFitMeans(ss: seq<Shown>, orders: seq<seq<string>>)
    requires |orders| == |ss|
    ensures AllFit(ss, orders) <==> forall i :: 0 <= i < |ss| ==> Fits(orders[i], ss[i])
  {
    if ss != [] {
      var n := |ss| - 1;
      AllFitMeans(ss[..n], orders[..n]);
      assert forall i :: 0 <= i < n ==> ss[..n][i] == ss[i] && orders[..n][i] == orders[i];
    }
  }

  /** What WriteProperty writes: `GROUP.` when there is a group, the name,
      the parameters and the ':'. The value itself is not written. */
  function Header(d: PropData, order: seq<string>): string {
    (if d.group != "" then d.group + "." else "") + d.name + ParamsText(d.params, order) + ":"
  }

  /** Strings written one after the other. */
  function Concat(hs: seq<string>): string {
    if hs == [] then "" else Concat(hs[..|hs| - 1]) + hs[|hs| - 1]
  }

  /** The header of each property in `ss` with its parameter order. */
  function Headers(ss: seq<Shown>, orders: seq<seq<string>>): (hs: seq<string>)
    requires |orders| == |ss|
    ensures |hs| == |ss|
  {
    if ss == [] then []
    else
      var n := |ss| - 1;
      Headers(ss[..n], orders[..n]) + [Header(ss[n].data, orders[n])]
  }

  /** The properties Encode writes after the version: those under each key
      of `keys` in turn, skipping every key equal to VERSION ignoring case. */
  function Listed(e: map<string, seq<Property>>, keys: seq<string>): seq<Property>
    requires forall k :: k in keys ==> k in e
  {
    if keys == [] then []
    else
      var k := keys[|keys| - 1];
      Listed(e, keys[..|keys| - 1]) + (if EqualFold(k, PropVersion) then [] else e[k])
  }

  lemma ListedSnoc(e: map<string, seq<Property>>, keys: seq<string>, i: nat)
    requires forall k :: k in keys ==> k in e
    requires i < |keys|
    ensures Listed(e, keys[..i + 1]) == Listed(e, keys[..i]) + (if EqualFold(keys[i], PropVersion) then [] else e[keys[i]])
  {
    assert keys[..i + 1][..i] == keys[..i];
  }

  /** A property is listed exactly when it sits under one of the keys that
      is not VERSION ignoring case. */
  lemma {:induction false} ListedMembers(e: map<string, seq<Property>>, keys: seq<string>, p: Property)
    requires forall k :: k in keys ==> k in e
    ensures p in Listed(e, keys) <==> exists k :: k in keys && !EqualFold(k, PropVersion) && p in e[k]
  {
    if keys != [] {
      var n := |keys| - 1;
      var init := keys[..n];
      assert forall k :: k in init ==> k in keys;
      ListedMembers(e, init, p);
      if exists k :: k in keys && !EqualFold(k, PropVersion) && p in e[k] {
        var k :| k in keys && !EqualFold(k, PropVersion) && p in e[k];
        if k != keys[n] {
          var j :| 0 <= j < |keys| && keys[j] == k;
          assert j < n && init[j] == k;
        }
      }
    }
  }

  lemma ParamsTextSnoc(params: map<string, seq<string>>, order: seq<string>, k: string)
    ensures ParamsText(params, order + [k]) == ParamsText(params, order) + ParamText(k, Lookup(params, k))
    decreases |order|
  {
    if order == [] {
      assert ([] + [k])[1..] == [];
    } else {
      assert (order + [k])[1..] == order[1..] + [k];
      ParamsTextSnoc(params, order[1..], k);
    }
  }

  lemma {:induction false} ConcatAppend(a: seq<string>, b: seq<string>)
    ensures Concat(a + b) == Concat(a) + Concat(b)
    decreases |b|
  {
    if b == [] {
      assert a + b == a;
    } else {
      var n := |b| - 1;
      ConcatAppend(a, b[..n]);
      assert (a + b)[..|a| + n] == a + b[..n];
      Assoc(Concat(a), Concat(b[..n]), b[n]);
    }
  }

  lemma {:induction false} HeadersAppend(a: seq<Shown>, oa: seq<seq<string>>, b: seq<Shown>, ob: seq<seq<string>>)
    requires |oa| == |a| && |ob| == |b|
    ensures Headers(a + b, oa + ob) == Headers(a, oa) + Headers(b, ob)
    decreases |b|
  {
    if b == [] {
      assert a + b == a && oa + ob == oa;
    } else {
      var n := |b| - 1;
      HeadersAppend(a, oa, b[..n], ob[..n]);
      assert (a + b)[..|a| + n] == a + b[..n];
      assert (oa + ob)[..|a| + n] == oa + ob[..n];
      assert (a + b)[|a| + n] == b[n] && (oa + ob)[|a| + n] == ob[n];
    }
  }

  lemma HeadersOne(x: Shown, o: seq<string>)
    ensures Headers([x], [o]) == [Header(x.data, o)]
  {
    assert [x][..0] == [] && [o][..0] == [];
  }

  lemma {:induction false} AllFitAppend(a: seq<Shown>, oa: seq<seq<string>>, b: seq<Shown>, ob: seq<seq<string>>)
    requires AllFit(a, oa) && AllFit(b, ob)
    ensures AllFit(a + b, oa + ob)
    decreases |b|
  {
    if b == [] {
      assert a + b == a && oa + ob == oa;
    } else {
      var n := |b| - 1;
      AllFitAppend(a, oa, b[..n], ob[..n]);
      assert (a + b)[..|a| + n] == a + b[..n];
      assert (oa + ob)[..|a| + n] == oa + ob[..n];
      assert (a + b)[|a| + n] == b[n] && (oa + ob)[|a| + n] == ob[n];
    }
  }

  /** Appending one string to the sequence appends it to the text. */
  lemma ConcatSnoc(hs: seq<string>, h: string)
    ensures Concat(hs + [h]) == Concat(hs) + h
  {
    assert (hs + [h])[..|hs|] == hs;
  }

  lemma {:induction false} ShowsAt(ps: seq<Property>, i: nat)
    requires i < |ps|
    ensures Shows(ps)[i] == Show(ps[i])
    decreases |ps|
  {
    if i < |ps| - 1 {
      ShowsAt(ps[..|ps| - 1], i);
    }
  }

  lemma {:induction false} ShowsAppend(a: seq<Property>, b: seq<Property>)
    ensures Shows(a + b) == Shows(a) + Shows(b)
    decreases |b|
  {
    if b == [] {
      assert a + b == a;
    } else {
      var n := |b| - 1;
      ShowsAppend(a, b[..n]);
      assert (a + b)[..|a| + n] == a + b[..n];
      assert (a + b)[|a| + n] == b[n];
    }
  }

  lemma AllFitOne(x: Shown, o: seq<string>)
    requires Fits(o, x)
    ensures AllFit([x], [o])
  {
    assert [x][..0] == [] && [o][..0] == [];
  }

  lemma ConcatOne(h: string)
    ensures Concat([h]) == h
  {
    assert [h][..0] == [];
  }

  lemma ShowsSnoc(ps: seq<Property>, i: nat)
    requires i < |ps|
    ensures Shows(ps[..i + 1]) == Shows(ps[..i]) + [Show(ps[i])]
  {
    assert ps[..i + 1][..i] == ps[..i];
  }

  lemma AllFitSnoc(ss: seq<Shown>, orders: seq<seq<string>>, x: Shown, o: seq<string>)
    requires AllFit(ss, orders) && Fits(o, x)
    ensures AllFit(ss + [x], orders + [o])
  {
    assert (ss + [x])[..|ss|] == ss && (orders + [o])[..|ss|] == orders;
  }

  lemma HeadersSnoc(ss: seq<Shown>, orders: seq<seq<string>>, x: Shown, o: seq<string>)
    requires |orders| == |ss|
    ensures Headers(ss + [x], orders + [o]) == Headers(ss, orders) + [Header(x.data, o)]
  {
    assert (ss + [x])[..|ss|] == ss && (orders + [o])[..|ss|] == orders;
  }

  /** One more header written after those of `ss`. */
  lemma WroteOneMore(ss: seq<Shown>, orders: seq<seq<string>>, w: string, x: Shown, o: seq<string>, h: string)
    requires AllFit(ss, orders) && w == Concat(Headers(ss, orders))
    requires Fits(o, x) && h == Header(x.data, o)
    ensures AllFit(ss + [x], orders + [o]) && w + h == Concat(Headers(ss + [x], orders + [o]))
  {
    AllFitSnoc(ss, orders, x, o);
    HeadersSnoc(ss, orders, x, o);
    ConcatSnoc(Headers(ss, orders), h);
  }

  /** The headers of `ps` written after those of `ss`. */
  lemma WroteMore(ss: seq<Shown>, orders: seq<seq<string>>, w: string, ps: seq<Shown>, os: seq<seq<string>>, part: string)
    requires AllFit(ss, orders) && w == Concat(Headers(ss, orders))
    requires AllFit(ps, os) && part == Concat(Headers(ps, os))
    ensures AllFit(ss + ps, orders + os) && w + part == Concat(Headers(ss + ps, orders + os))
  {
    AllFitAppend(ss, orders, ps, os);
    HeadersAppend(ss, orders, ps, os);
    ConcatAppend(Headers(ss, orders), Headers(ps, os));
  }

  lemma ShowsCons(p: Property, ps: seq<Property>)
    ensures Shows([p] + ps) == [Show(p)] + Shows(ps)
  {
    ShowsAppend([p], ps);
    assert [p][..0] == [];
  }

  /** The text Encode writes between BEGIN and END: the version's header,
      then the headers the key loop wrote. */
  lemma Assemble(v: Shown, o: seq<string>, rest: seq<Shown>, os: seq<seq<string>>, h: string, body: string)
    requires Fits(o, v) && AllFit(rest, os)
    requires h == Header(v.data, o) && body == Concat(Headers(rest, os))
    ensures AllFit([v] + rest, [o] + os)
    ensures h + body == Concat(Headers([v] + rest, [o] + os))
  {
    AllFitOne(v, o);
    AllFitAppend([v], [o], rest, os);
    HeadersAppend([v], [o], rest, os);
    HeadersOne(v, o);
    ConcatAppend([h], Headers(rest, os));
    ConcatOne(h);
  }

  /** WriteValue: each character escaped, with a break once FoldWidth
      characters have been written on the current line. */
  method WriteValue(val: string) returns (w: string)
    ensures w == Folded(val)
  {
    w := "";
    var i := 0;
    var j := 0;
    while j < |val|
      invariant 0 <= j <= |val| && i <= FoldWidth
      invariant w + Fold(val[j..], i) == Folded(val)
    {
      var c := val[j];
      ghost var before := w;
      ghost var pre := if i == FoldWidth then FoldBreak else "";
      ghost var f := Fold(val[j + 1..], (if i == FoldWidth then 0 else i) + 1);
      assert Fold(val[j..], i) == pre + Esc(c) + f by {
        assert val[j..][0] == c && val[j..][1..] == val[j + 1..];
      }
      if i == FoldWidth {
        w := w + FoldBreak;
        i := 0;
      }
      var e := Esc(c);
      w := w + e;
      i := i + 1;
      assert w == before + pre + e;
      Assoc(before, pre, e);
      Assoc(before, pre + e, f);
      j := j + 1;
    }
  }

  /** The values of one parameter joined by ",". */
  method WriteJoined(vals: seq<string>) returns (w: string)
    ensures w == Join(vals)
  {
    w := "";
    var vi := 0;
    while vi < |vals|
      invariant 0 <= vi <= |vals|
      invariant w == Join(vals[..vi]) + (if 0 < vi < |vals| then "," else "")
    {
      assert vals[..vi + 1][..vi] == vals[..vi];
      w := w + vals[vi];
      if vi + 1 < |vals| {
        w := w + ",";
      }
      vi := vi + 1;
    }
    assert vals[..vi] == vals;
  }

  /** WriteProperty: the header of `prop`, its parameters in an order the
      map chooses and returned as `order`; the value is not written. */
  method WriteProperty(prop: Property) returns (w: string, ghost order: seq<string>)
    ensures Fits(order, Show(prop))
    ensures w == Header(prop.Snap(), order)
  {
    var params := prop.params;
    w := "";
    if prop.group != "" {
      w := w + prop.group;
      w := w + ".";
    }
    w := w + prop.name;
    order := [];
    ghost var start := w;
    if !prop.paramsNil {
      var rest := params.Keys;
      while rest != {}
        invariant rest <= params.Keys
        invariant Enumerates(order, params.Keys - rest)
        invariant w == start + ParamsText(params, order)
        decreases rest
      {
        var key :| key in rest;
        var vals := params[key];
        EnumeratesSnoc(order, params.Keys - rest, key);
        assert (params.Keys - rest) + {key} == params.Keys - (rest - {key});
        ghost var w0 := w;
        ghost var tail := if |vals| > 0 then "=" + Join(vals) else "";
        w := w + ";";
        w := w + key;
        if |vals| > 0 {
          w := w + "=";
          var joined := WriteJoined(vals);
          w := w + joined;
        }
        assert w == w0 + ";" + key + tail;
        Assoc(w0, ";", key);
        Assoc(w0, ";" + key, tail);
        ParamsTextSnoc(params, order, key);
        Assoc(start, ParamsText(params, order), ParamText(key, vals));
        order := order + [key];
        rest := rest - {key};
      }
      assert params.Keys - rest == params.Keys;
    }
    w := w + ":";
  }

  /** The loop over the properties under one key: each one's header. */
  method WriteAll(props: seq<Property>, ghost all: seq<Shown>) returns (w: string, ghost orders: seq<seq<string>>)
    requires all == Shows(props)
    ensures AllFit(all, orders)
    ensures w == Concat(Headers(all, orders))
  {
    w := "";
    orders := [];
    var pi := 0;
    while pi < |props|
      invariant 0 <= pi <= |props| && all == Shows(props)
      invariant AllFit(all[..pi], orders) && w == Concat(Headers(all[..pi], orders))
    {
      assert all[..pi + 1] == all[..pi] + [all[pi]];
      var h, o := WriteProperty(props[pi]);
      ShowsAt(props, pi);
      WroteOneMore(all[..pi], orders, w, all[pi], o, h);
      w := w + h;
      orders := orders + [o];
      pi := pi + 1;
    }
    assert all[..pi] == all;
  }

  /** Encode's loop over the sorted keys: the properties under every key
      but those equal to VERSION ignoring case, key after key. */
  method WriteKeyed(e: map<string, seq<Property>>, keys: seq<string>) returns (w: string, ghost written: seq<Property>, ghost orders: seq<seq<string>>)
    requires forall k :: k in keys ==> k in e
    ensures written == Listed(e, keys)
    ensures AllFit(Shows(written), orders)
    ensures w == Concat(Headers(Shows(written), orders))
  {
    w := "";
    written, orders := [], [];
    ghost var ss: seq<Shown> := [];
    var ki := 0;
    while ki < |keys|
      invariant 0 <= ki <= |keys|
      invariant written == Listed(e, keys[..ki]) && allocated(written) && ss == Shows(written)
      invariant AllFit(ss, orders) && w == Concat(Headers(ss, orders))
    {
      var part;
      part, written, orders, ss := WriteKey(e, keys, ki, w, written, orders, ss);
      w := w + part;
      ki := ki + 1;
    }
    assert keys[..ki] == keys;
  }

  /** One round of the key loop: the properties under `keys[i]`, unless that
      key is VERSION ignoring case. `ss` is what the encoder sees of the
      properties written so far, `ss'` of those written after this round. */
  method WriteKey(e: map<string, seq<Property>>, keys: seq<string>, i: nat,
                  ghost w: string, ghost written: seq<Property>, ghost orders: seq<seq<string>>, ghost ss: seq<Shown>)
    returns (part: string, ghost written': seq<Property>, ghost orders': seq<seq<string>>, ghost ss': seq<Shown>)
    requires forall k :: k in keys ==> k in e
    requires i < |keys| && written == Listed(e, keys[..i]) && ss == Shows(written)
    requires AllFit(ss, orders) && w == Concat(Headers(ss, orders))
    ensures written' == Listed(e, keys[..i + 1]) && old(allocated(written')) && ss' == old(Shows(written'))
    ensures AllFit(ss', orders') && w + part == Concat(Headers(ss', orders'))
  {
    var k := keys[i];
    var props := e[k];
    ListedSnoc(e, keys, i);
    if EqualFold(k, PropVersion) {
      part, written', orders', ss' := "", written, orders, ss;
    } else {
      ghost var ps := Shows(props);
      ShowsAppend(written, props);
      ghost var os;
      part, os := WriteAll(props, ps);
      WroteMore(ss, orders, w, ps, os, part);
      written', orders', ss' := written + props, orders + os, ss + ps;
    }
  }

  /** Encode: BEGIN, the version property, every other property key by
      key in ascending order of keys, then END. Without a version property
      it returns an error after BEGIN has been written. `w` is the text
      written, `written` and `orders` the properties written and the
      parameter order used for each, `keys` the sorted key list. */
  method Encode(c: Card) returns (err: Option<string>, w: string, ghost written: seq<Property>, ghost orders: seq<seq<string>>, ghost keys: seq<string>)
    ensures err == None || err == Some(MissingVersion)
    ensures err == Some(MissingVersion) <==> c.Get(PropVersion) == null
    ensures err != None ==> w == Begin
    ensures err == None ==>
      && Sorted(keys) && Elements(keys) == c.entries.Keys
      && written == [c.Get(PropVersion)] + Listed(c.entries, keys)
      && AllFit(Shows(written), orders)
      && w == Begin + Concat(Headers(Shows(written), orders)) + End
  {
    w := Begin;
    var version := c.Get(PropVersion);
    if version == null {
      return Some(MissingVersion), w, [], [], [];
    }
    var v: Property := version;
    var h, o := WriteProperty(v);
    ghost var sv := Show(v);
    var sorted := SortKeys(c.entries.Keys);
    keys := sorted;
    assert forall k :: k in sorted ==> k in c.entries by {
      assert forall k :: k in sorted ==> k in Elements(sorted);
    }
    var body, rest, os := WriteKeyed(c.entries, sorted);
    ghost var sr := Shows(rest);
    written, orders := [v] + rest, [o] + os;
    ShowsCons(v, rest);
    Assemble(sv, o, sr, os, h, body);
    w := w + (h + body) + End;
    err := None;
  }
}
