/** The streaming decoder: a scanner over the input with one character of
    look-ahead, and the loops that read one property after another. Each
    loop is proved to compute the matching function of module Scan. */
module Decoding {
  import opened Properties
  import opened Cards
  import opened Scan

  /** A character from the scanner, or EOF at the end of the input. */
  datatype Rune = EOF | Ch(c: char)

  /** The byte-order mark, which `text/scanner` skips when it is the first
      character of its input. */
  const Bom: char := '\U{FEFF}'

  /** The input as `text/scanner` delivers it: a leading byte-order mark
      is dropped, and any other is kept. */
  function WithoutBom(src: string): string {
    if |src| > 0 && src[0] == Bom then src[1..] else src
  }

  /** Only a byte-order mark at the very start is dropped. */
  lemma WithoutBomEffect(t: string)
    ensures WithoutBom([Bom] + t) == t
    ensures (t == [] || t[0] != Bom) ==> WithoutBom(t) == t
  {
    assert ([Bom] + t)[1..] == t;
  }

  /** The part of `text/scanner` the decoder uses: `Peek` and `Next` over
      the whole input, which is held as a string. */
  class Scanner {
    const src: string
    var pos: nat

    predicate Valid()
      reads this
    {
      pos <= |src|
    }

    /** `Init`, with the byte-order mark the first read would skip
        already skipped. */
    constructor (src: string)
      ensures this.src == src && Valid()
      ensures pos == if |src| > 0 && src[0] == Bom then 1 else 0
      ensures Rest() == WithoutBom(src)
    {
      this.src := src;
      pos := if |src| > 0 && src[0] == Bom then 1 else 0;
    }

    /** The text not yet read. */
    function Rest(): (r: string)
      reads this
      requires Valid()
      ensures |r| == |src| - pos
    {
      src[pos..]
    }

    /** The next character, without reading it. */
    function Peek(): (r: Rune)
      reads this
      requires Valid()
      ensures r == EOF <==> pos == |src|
      ensures r != EOF ==> r.c == src[pos]
    {
      if pos < |src| then Ch(src[pos]) else EOF
    }

    /** Reads and returns the next character; at the end it returns EOF
        and stays there. */
    method Next() returns (r: Rune)
      requires Valid()
      modifies this
      ensures Valid()
      ensures r == old(Peek())
      ensures pos == if old(pos) < |src| then old(pos) + 1 else old(pos)
      ensures r == EOF ==> Rest() == [] && old(Rest()) == []
      ensures r != EOF ==> old(Rest()) != [] && r.c == old(Rest())[0] && Rest() == old(Rest())[1..]
    {
      if pos < |src| {
        r := Ch(src[pos]);
        pos := pos + 1;
      } else {
        r := EOF;
      }
    }
  }

  /** The properties of a card as values, name by name. */
  function CardData(c: Card): map<string, seq<PropData>>
    reads c, set k, p | k in c.entries && p in c.entries[k] :: p
  {
    EntriesData(c.entries)
  }

  function EntriesData(e: map<string, seq<Property>>): map<string, seq<PropData>>
    reads set k, p | k in e && p in e[k] :: p
  {
    map k | k in e :: Snaps(e[k])
  }

  /** The card Decode builds from the property objects `objs` whose values
      are `vals`: each object appended under the name of its value. */
  function Filed(acc: map<string, seq<Property>>, objs: seq<Property>, vals: seq<PropData>): map<string, seq<Property>>
    requires |objs| == |vals|
    decreases |objs|
  {
    if objs == [] then acc
    else Appended(Filed(acc, objs[..|objs| - 1], vals[..|vals| - 1]), vals[|vals| - 1].name, objs[|objs| - 1])
  }

  lemma FiledStep(acc: map<string, seq<Property>>, objs: seq<Property>, vals: seq<PropData>, p: Property, v: PropData)
    requires |objs| == |vals|
    ensures Filed(acc, objs + [p], vals + [v]) == Appended(Filed(acc, objs, vals), v.name, p)
  {
    assert (objs + [p])[..|objs|] == objs && (vals + [v])[..|vals|] == vals;
  }

  /** Filing the objects gives, value by value, the card Collect builds. */
  lemma {:induction false} FiledData(objs: seq<Property>, vals: seq<PropData>)
    requires Snaps(objs) == vals
    ensures EntriesData(Filed(map[], objs, vals)) == Collect(map[], vals)
    decreases |objs|
  {
    if objs != [] {
      var n := |objs| - 1;
      assert Snaps(objs) == Snaps(objs[..n]) + [objs[n].Snap()];
      assert vals == vals[..n] + [vals[n]];
      FiledData(objs[..n], vals[..n]);
      AddedData(Filed(map[], objs[..n], vals[..n]), objs[n]);
      CollectSnoc(map[], vals[..n], vals[n]);
      assert vals[..n] + [vals[n]] == vals;
    }
  }

  /** Appending a property object under its name appends its value under
      the same name. */
  lemma AddedData(e: map<string, seq<Property>>, p: Property)
    ensures EntriesData(Appended(e, p.name, p)) == Appended(EntriesData(e), p.name, p.Snap())
  {
    var a := EntriesData(Appended(e, p.name, p));
    var b := Appended(EntriesData(e), p.name, p.Snap());
    forall k | k in a
      ensures a[k] == b[k]
    {
      if k == p.name {
        SnapsAppend(Lookup(e, k), p);
      } else {
        assert a[k] == Snaps(e[k]);
      }
    }
    assert a.Keys == b.Keys;
  }

  lemma SnapsAppend(s: seq<Property>, p: Property)
    ensures Snaps(s + [p]) == Snaps(s) + [p.Snap()]
  {
    assert (s + [p])[..|s|] == s;
  }

  function Snaps(ps: seq<Property>): (r: seq<PropData>)
    reads set p | p in ps
    ensures |r| == |ps|
  {
    if ps == [] then [] else Snaps(ps[..|ps| - 1]) + [ps[|ps| - 1].Snap()]
  }

  /** Reading on from position `p0` by `i` characters leaves the same text
      as reading from `p0 + i`. */
  lemma SuffixOf(src: string, p0: nat, i: nat)
    requires p0 + i <= |src|
    ensures src[p0..][i..] == src[p0 + i..]
  {
  }

  class Decoder {
    const scan: Scanner

    predicate Valid()
      reads this, scan
    {
      scan.Valid()
    }

    /** `NewDecoder`: a scanner positioned at the start of `r`, past a
        leading byte-order mark. */
    constructor (r: string)
      ensures fresh(scan) && scan.src == r && Valid()
      ensures scan.Rest() == WithoutBom(r)
    {
      scan := new Scanner(r);
    }

    /** Decode: reads properties until ReadProp finds the input exhausted,
        appending each under its name. It never reports an error. */
    method Decode() returns (c: Card, err: Option<string>)
      requires Valid()
      modifies scan
      ensures Valid() && fresh(c) && err == None
      ensures CardData(c) == Collect(map[], ReadAll(old(scan.Rest())))
      ensures scan.Rest() == []
    {
      ghost var t := scan.Rest();
      c := new Card();
      err := None;
      ghost var objs: seq<Property> := [];
      ghost var vals: seq<PropData> := [];
      ghost var d: PropData;
      var prop := ReadProp();
      if prop != null {
        d := prop.Snap();
        assert vals + [d] == [d];
      }
      while prop != null
        invariant Valid() && fresh(c)
        invariant prop == null ==> scan.Rest() == [] && vals == ReadAll(t)
        invariant prop != null ==> prop.Snap() == d && vals + [d] + ReadAll(scan.Rest()) == ReadAll(t)
        invariant Snaps(objs) == vals
        invariant c.entries == Filed(map[], objs, vals)
        decreases |scan.Rest()|, prop != null
      {
        ghost var u := scan.Rest();
        var q: Property := prop;
        prop := Step(c, q, objs, vals, d);
        if prop != null {
          Shift(vals, d, prop.Snap(), ReadAll(u), ReadAll(scan.Rest()), ReadAll(t));
        }
        objs, vals := objs + [q], vals + [d];
        if prop != null {
          d := prop.Snap();
        }
      }
      FiledData(objs, vals);
    }

    /** One pass of Decode's loop: `q` is appended under its name and the
        next property is read. */
    method Step(c: Card, q: Property, ghost objs: seq<Property>, ghost vals: seq<PropData>, ghost d: PropData) returns (p: Property?)
      requires Valid() && q.Snap() == d
      requires Snaps(objs) == vals
      requires c.entries == Filed(map[], objs, vals)
      modifies scan, c
      ensures Valid()
      ensures Snaps(objs + [q]) == vals + [d]
      ensures c.entries == Filed(map[], objs + [q], vals + [d])
      ensures p == null <==> old(scan.Rest()) == []
      ensures p == null ==> scan.Rest() == []
      ensures p != null ==> fresh(p) && ReadAll(old(scan.Rest())) == [p.Snap()] + ReadAll(scan.Rest())
      ensures p != null ==> |scan.Rest()| < |old(scan.Rest())|
    {
      FiledStep(map[], objs, vals, q, d);
      c.entries := c.entries[q.name := Lookup(c.entries, q.name) + [q]];
      p := ReadProp();
      SnapsAppend(objs, q);
    }

    /** ReadProp: null at end of input; otherwise group and name, the
        parameters when the name ended at ';', the ':' taken, and the value. */
    method ReadProp() returns (p: Property?)
      requires Valid()
      modifies scan
      ensures Valid()
      ensures p == null <==> old(scan.Rest()) == []
      ensures p == null ==> scan.Rest() == []
      ensures p != null ==> var r := Scan.ReadProp(old(scan.Rest()));
        fresh(p) && p.Snap() == r.prop && |scan.Rest()| == r.rest
      ensures p != null ==> ReadAll(old(scan.Rest())) == [p.Snap()] + ReadAll(scan.Rest())
    {
      ghost var t := scan.Rest();
      ghost var p0 := scan.pos;
      if scan.Peek() == EOF {
        return null;
      }
      ghost var i, j, k;
      var group, name, params;
      group, name, params, i, j, k := ReadHead();
      SuffixOf(scan.src, p0, k);
      ghost var u := scan.Rest();
      assert u == t[k..];
      var value := ReadValues();
      ghost var vr := ScanValues(u, FreshValues);
      assert value == vr.values && |scan.Rest()| == vr.rest;
      ReadPropStages(t, i, j, k, group, name, params, value, vr.rest);
      p := new Property(group, name, params, value);
      ReadAllAfter(scan.src, p0, scan.pos, p.Snap());
    }

    /** The statements of ReadProp before readValues: group and name, the
        parameters when the name ended at ';', and the character after them.
        `i`, `j` and `k` are where each stage left the scanner. */
    method ReadHead() returns (group: string, name: string, params: map<string, seq<string>>, ghost i: nat, ghost j: nat, ghost k: nat)
      requires Valid() && scan.Rest() != []
      modifies scan
      ensures Valid()
      ensures var t := old(scan.Rest()); var gn := Scan.ReadGroupName(t);
        i == |t| - gn.rest && group == gn.group && name == gn.name &&
        i <= |t| && j == |t| - ParamsOf(t, i).rest && params == ParamsOf(t, i).params &&
        k == ValueStart(t, j) && scan.pos == old(scan.pos) + k
    {
      ghost var t := scan.Rest();
      ghost var p0 := scan.pos;
      group, name := ReadGroupName();
      ghost var gn := Scan.ReadGroupName(t);
      i := |t| - gn.rest;
      assert scan.pos == p0 + i;
      SuffixOf(scan.src, p0, i);
      params := map[];
      if scan.Peek() == Ch(';') {
        params := ReadParams();
      }
      ghost var pr := ParamsOf(t, i);
      j := |t| - pr.rest;
      assert scan.pos == p0 + j;
      var _ := scan.Next();
      k := ValueStart(t, j);
    }

    /** readGroupName: reads up to the first ';' or ':' and leaves it unread. */
    method ReadGroupName() returns (group: string, name: string)
      requires Valid()
      modifies scan
      ensures Valid()
      ensures var g := Scan.ReadGroupName(old(scan.Rest()));
        group == g.group && name == g.name && |scan.Rest()| == g.rest
    {
      ghost var p0 := scan.pos;
      ghost var t := scan.Rest();
      ghost var i := 0;
      group, name := "", "";
      var c := scan.Peek();
      var buf := "";
      while c != EOF
        invariant Valid() && scan.pos == p0 + i && i <= |t| && t == scan.src[p0..]
        invariant c == (if i < |t| then Ch(t[i]) else EOF)
        invariant forall k :: 0 <= k < i ==> t[k] != ';' && t[k] != ':'
        invariant GroupScan(group, buf) == ScanGroup(t[..i]) && name == ""
        decreases |t| - i
      {
        if c == Ch('.') {
          group := buf;
          buf := "";
        } else if c == Ch(';') || c == Ch(':') {
          name := buf;
          ReadGroupNameAt(t, i);
          return;
        } else if c == Ch('\n') || c == Ch('\r') {
        } else {
          buf := buf + [c.c];
        }
        assert t[..i + 1][..i] == t[..i];
        var _ := scan.Next();
        c := scan.Peek();
        i := i + 1;
      }
      ReadGroupNameAt(t, i);
    }

    /** readParams: reads `;NAME=V1,V2;...` up to the ':' that opens the
        value and leaves that ':' unread. */
    method ReadParams() returns (params: map<string, seq<string>>)
      requires Valid()
      modifies scan
      ensures Valid()
      ensures var r := ScanParams(old(scan.Rest()), FreshParams);
        params == r.params && |scan.Rest()| == r.rest
    {
      ghost var p0 := scan.pos;
      ghost var t := scan.Rest();
      ghost var i := 0;
      var c := scan.Peek();
      var buf := "";
      var name := "";
      var value := "";
      params := map[];
      var values := [];
      while c != EOF
        invariant Valid() && scan.pos == p0 + i && i <= |t| && t == scan.src[p0..]
        invariant c == (if i < |t| then Ch(t[i]) else EOF)
        invariant value == ""
        invariant ScanParams(t[i..], ParamState(params, name, values, buf)) == ScanParams(t, FreshParams)
        decreases |t| - i
      {
        ghost var st := ParamState(params, name, values, buf);
        assert t[i..][1..] == t[i + 1..];
        if c == Ch(',') {
          values := values + [buf];
          buf := "";
        } else if c == Ch(';') || c == Ch(':') {
          if name == "" {
            name := buf;
          } else {
            value := buf;
          }
          CloseSegmentInPlace(st, name, value);
          if name != "" {
            values := values + [value];
            if name in params {
              params := params[name := params[name] + values];
            } else {
              params := params[name := values];
            }
          }
          if c == Ch(':') {
            return;
          }
          buf := "";
          values := [];
          name := "";
          value := "";
        } else if c == Ch('=') {
          name := buf;
          buf := "";
        } else {
          buf := buf + [c.c];
        }
        var _ := scan.Next();
        c := scan.Peek();
        i := i + 1;
      }
    }

    /** readValues: takes the character after the ':' and reads the value
        up to the line feed that ends it, unfolding continuation lines. */
    method ReadValues() returns (values: seq<seq<string>>)
      requires Valid()
      modifies scan
      ensures Valid()
      ensures var r := ScanValues(old(scan.Rest()), FreshValues);
        values == r.values && |scan.Rest()| == r.rest
    {
      ghost var u := scan.Rest();
      ghost var target := ScanValues(u, FreshValues);
      var c := scan.Next();
      var buf := "";
      var escape := false;
      var val := [];
      values := [];
      while c != EOF
        invariant Valid()
        invariant c == EOF ==> scan.Rest() == [] && target == ValuesRead(values, 0)
        invariant c != EOF ==> u != [] && u[0] == c.c && scan.Rest() == u[1..]
        invariant c != EOF ==> ScanValues(u, ValueState(values, val, buf, escape)) == target
        decreases |scan.Rest()| + (if c == EOF then 0 else 1)
      {
        ghost var st := ValueState(values, val, buf, escape);
        if c == Ch('\n') {
          var la := scan.Peek();
          if la != Ch(' ') && la != Ch('\t') {
            assert val + [] == val;
            if |buf| > 0 {
              val := val + [buf];
            }
            values := values + [val];
            return;
          } else {
            c := scan.Next();
            ghost var q;
            c, q := SkipUnfoldBlanks(c, u);
            ValuesUnfoldAt(u, q, st);
            if c == EOF {
              return;
            }
            u := u[q..];
          }
        }
        values, val, buf, escape := ConsumeRune(values, val, buf, escape, c.c);
        c := scan.Next();
        u := u[1..];
      }
    }

    /** The character handling of readValues' loop, after the line-feed
        check: escapes, ',' and ';' separators, and ordinary characters. */
    static method ConsumeRune(values0: seq<seq<string>>, val0: seq<string>, buf0: string, escape0: bool, x0: char)
      returns (values: seq<seq<string>>, val: seq<string>, buf: string, escape: bool)
      ensures ValueState(values, val, buf, escape) == Consume(ValueState(values0, val0, buf0, escape0), x0)
    {
      values, val, buf, escape := values0, val0, buf0, escape0;
      if x0 == '\\' {
        escape := true;
      } else if escape {
        var x := x0;
        if x == 'n' || x == 'N' {
          x := '\n';
        }
        buf := buf + [x];
        escape := false;
      } else if x0 == ',' {
        if |buf| > 0 {
          val := val + [buf];
          buf := "";
        }
      } else if x0 == ';' {
        assert val + [] == val;
        if |buf| > 0 {
          val := val + [buf];
          buf := "";
        }
        values := values + [val];
        val := [];
      } else if x0 != '\n' && x0 != '\r' {
        buf := buf + [x0];
      }
    }

    /** The inner loop of readValues: after a line feed followed by a space
        or tab, reads on while the character taken is a space or tab. It
        stops at index `q` of `u`, the text from that line feed on. */
    method SkipUnfoldBlanks(c0: Rune, ghost u: string) returns (c: Rune, ghost q: nat)
      requires Valid() && c0 != EOF && Blank(c0.c)
      requires |u| > 1 && u[0] == '\n' && u[1] == c0.c && scan.Rest() == u[2..]
      modifies scan
      ensures Valid()
      ensures 1 < q <= |u| && forall j :: 1 <= j < q ==> Blank(u[j])
      ensures c == EOF ==> q == |u| && scan.Rest() == []
      ensures c != EOF ==> q < |u| && u[q] == c.c && !Blank(c.c) && scan.Rest() == u[q + 1..]
    {
      c := c0;
      q := 1;
      while c == Ch(' ') || c == Ch('\t')
        invariant Valid() && 1 <= q <= |u|
        invariant forall j :: 1 <= j < q ==> Blank(u[j])
        invariant c == EOF ==> q == |u| && scan.Rest() == [] && q > 1
        invariant c != EOF ==> q < |u| && u[q] == c.c && scan.Rest() == u[q + 1..] && (q > 1 || Blank(c.c))
        decreases |u| - q
      {
        q := q + 1;
        c := scan.Next();
      }
    }
  }
}
