/**
  Structured data of a syslog message, section 6.3 of RFC 5424:
  `[id name="value" ...]...` with `"`, `\` and `]` escaped inside values.
 */
module StructuredData {
  import opened Options

  datatype Param = Param(name: string, value: string)

  datatype Element = Element(id: string, params: seq<Param>)

  // ----- the printer of section 6.3

  predicate MustEscape(c: char) { c == '"' || c == '\\' || c == ']' }

  function Escape(v: string): string {
    if v == [] then []
    else (if MustEscape(v[0]) then ['\\', v[0]] else [v[0]]) + Escape(v[1..])
  }

  function PrintParams(ps: seq<Param>): string {
    if ps == [] then []
    else [' '] + (ps[0].name + (['=', '"'] + (Escape(ps[0].value) + (['"'] + PrintParams(ps[1..])))))
  }

  function Print(es: seq<Element>): string {
    if es == [] then []
    else ['['] + (es[0].id + (PrintParams(es[0].params) + ([']'] + Print(es[1..]))))
  }

  /** Enough of the grammar of SD-NAME: no space or `]` in an id, no `=` in a parameter name. */
  ghost predicate Printable(e: Element) {
    && ' ' !in e.id && ']' !in e.id
    && forall i :: 0 <= i < |e.params| ==> '=' !in e.params[i].name
  }

  // ----- what the parser reads, front to back

  predicate EndsId(c: char) { c == ' ' || c == ']' }

  /** Length of the id at the front. */
  function IdLength(s: string): (k: nat)
    ensures k <= |s| && (k < |s| ==> EndsId(s[k]))
    ensures forall i :: 0 <= i < k ==> !EndsId(s[i])
  {
    if s == [] || EndsId(s[0]) then 0 else 1 + IdLength(s[1..])
  }

  /** Length of the parameter name at the front. */
  function NameLength(s: string): (k: nat)
    ensures k <= |s| && (k < |s| ==> s[k] == '=')
    ensures forall i :: 0 <= i < k ==> s[i] != '='
  {
    if s == [] || s[0] == '=' then 0 else 1 + NameLength(s[1..])
  }

  /** The value up to its closing quote, and what follows the quote; None when it is not closed. */
  function ScanValue(s: string): (r: Option<(string, string)>)
    ensures r.Some? ==> |r.value.1| < |s|
    decreases |s|
  {
    if s == [] then None
    else if s[0] == '\\' && 1 < |s| && MustEscape(s[1]) then
      var r := ScanValue(s[2..]);
      if r.None? then None else Some(([s[1]] + r.value.0, r.value.1))
    else if s[0] == '"' then Some(([], s[1..]))
    else
      var r := ScanValue(s[1..]);
      if r.None? then None else Some(([s[0]] + r.value.0, r.value.1))
  }

  /** The parameters at the front, and what follows them; None when a value is not closed. */
  function ScanParams(s: string): (r: Option<(seq<Param>, string)>)
    ensures r.Some? ==> |r.value.1| <= |s|
    decreases |s|
  {
    if s == [] || s[0] != ' ' then Some(([], s))
    else
      var t := s[1..];
      var k := NameLength(t);
      if k + 1 >= |t| || t[k + 1] != '"' then Some(([], t))
      else
        var v := ScanValue(t[k + 2..]);
        if v.None? then None
        else
          var r := ScanParams(v.value.1);
          if r.None? then None else Some(([Param(t[..k], v.value.0)] + r.value.0, r.value.1))
  }

  /** The elements at the front, and what follows them; None when one is malformed. */
  function ScanElements(s: string): (r: Option<(seq<Element>, string)>)
    ensures r.Some? ==> |r.value.1| <= |s|
    decreases |s|
  {
    if s == [] || s[0] != '[' then Some(([], s))
    else
      var k := IdLength(s[1..]);
      var ps := ScanParams(s[1..][k..]);
      if ps.None? || ps.value.1 == [] || ps.value.1[0] != ']' then None
      else
        var r := ScanElements(ps.value.1[1..]);
        if r.None? then None else Some(([Element(s[1..][..k], ps.value.0)] + r.value.0, r.value.1))
  }

  /** A dictionary filled in order; a repeated key keeps its last value. */
  function ParamMap(ps: seq<Param>): map<string, string> {
    if ps == [] then map[] else ParamMap(ps[..|ps| - 1])[ps[|ps| - 1].name := ps[|ps| - 1].value]
  }

  function ElementMap(es: seq<Element>): map<string, map<string, string>> {
    if es == [] then map[] else ElementMap(es[..|es| - 1])[es[|es| - 1].id := ParamMap(es[|es| - 1].params)]
  }

  datatype Parsed = Parsed(raw: string, remainder: string, sd: map<string, map<string, string>>)

  /** Malformed structured data is handed back as text. */
  function Parse(text: string): Parsed {
    var r := ScanElements(text);
    if r.None? then Parsed("", text, map[])
    else Parsed(text[..|text| - |r.value.1|], r.value.1, ElementMap(r.value.0))
  }

  // ----- one step of each scan

  lemma ValueStep(s: string)
    requires s != []
    ensures s[0] == '\\' && 1 < |s| && MustEscape(s[1]) ==>
              ScanValue(s) == Prepend(s[1], ScanValue(s[2..]))
    ensures !(s[0] == '\\' && 1 < |s| && MustEscape(s[1])) && s[0] == '"' ==>
              ScanValue(s) == Some(([], s[1..]))
    ensures !(s[0] == '\\' && 1 < |s| && MustEscape(s[1])) && s[0] != '"' ==>
              ScanValue(s) == Prepend(s[0], ScanValue(s[1..]))
  {
  }

  function Prepend(c: char, r: Option<(string, string)>): Option<(string, string)> {
    if r.None? then None else Some(([c] + r.value.0, r.value.1))
  }

  lemma ParamsStep(s: string)
    ensures s == [] || s[0] != ' ' ==> ScanParams(s) == Some(([], s))
    ensures s != [] && s[0] == ' ' ==>
              var t := s[1..];
              var k := NameLength(t);
              if k + 1 >= |t| || t[k + 1] != '"' then ScanParams(s) == Some(([], t))
              else
                var v := ScanValue(t[k + 2..]);
                if v.None? then ScanParams(s).None?
                else
                  var r := ScanParams(v.value.1);
                  ScanParams(s) == if r.None? then None else Some(([Param(t[..k], v.value.0)] + r.value.0, r.value.1))
  {
    hide ScanValue, NameLength;
  }

  lemma ElementsStep(s: string)
    ensures s == [] || s[0] != '[' ==> ScanElements(s) == Some(([], s))
    ensures s != [] && s[0] == '[' ==>
              var k := IdLength(s[1..]);
              var ps := ScanParams(s[1..][k..]);
              if ps.None? || ps.value.1 == [] || ps.value.1[0] != ']' then ScanElements(s).None?
              else
                var r := ScanElements(ps.value.1[1..]);
                ScanElements(s) ==
                if r.None? then None else Some(([Element(s[1..][..k], ps.value.0)] + r.value.0, r.value.1))
  {
    hide ScanParams, IdLength;
  }

  // ----- the index-based parser

  /** Scanning `whole` means having read `read` already and scanning `rest` next. */
  ghost predicate AfterValue(whole: string, read: string, rest: string) {
    && (ScanValue(whole).None? <==> ScanValue(rest).None?)
    && (ScanValue(whole).Some? ==>
          ScanValue(whole) == Some((read + ScanValue(rest).value.0, ScanValue(rest).value.1)))
  }

  lemma ReadValue(whole: string, read: string, text: string, k: nat)
    requires k < |text| && AfterValue(whole, read, text[k..])
    ensures if text[k] == '\\' && k + 1 < |text| && MustEscape(text[k + 1])
            then AfterValue(whole, read + [text[k + 1]], text[k + 2..])
            else if text[k] == '"' then ScanValue(whole) == Some((read, text[k + 1..]))
            else AfterValue(whole, read + [text[k]], text[k + 1..])
  {
    hide ScanValue;
    var s := text[k..];
    ValueStep(s);
    assert s[1..] == text[k + 1..];
    if 1 < |s| { assert s[2..] == text[k + 2..]; }
    assert read + [] == read;
    assert forall c: char, v: string :: read + ([c] + v) == (read + [c]) + v;
  }

  /** The innermost loop: from the character after the opening quote to the closing one or the end. */
  method ParseValue(text: string, start: nat) returns (value: string, k: nat)
    requires start <= |text|
    ensures start <= k <= |text|
    ensures k == |text| <==> ScanValue(text[start..]).None?
    ensures k < |text| ==> ScanValue(text[start..]) == Some((value, text[k + 1..]))
  {
    hide ScanValue, AfterValue, MustEscape;
    value, k := [], start;
    NothingRead(text[start..]);
    while k < |text|
      invariant start <= k <= |text|
      invariant AfterValue(text[start..], value, text[k..])
    {
      var ch := text[k];
      ReadValue(text[start..], value, text, k);
      if ch == '\\' && k + 1 < |text| && MustEscape(text[k + 1]) {
        value := value + [text[k + 1]];
        k := k + 2;
        continue;
      }
      if ch == '"' {
        return;
      }
      value := value + [ch];
      k := k + 1;
    }
    NotClosed(text[start..], value, text[k..]);
  }

  lemma NotClosed(whole: string, read: string, rest: string)
    requires AfterValue(whole, read, rest) && rest == []
    ensures ScanValue(whole).None?
  {
  }

  lemma NothingRead(s: string)
    ensures AfterValue(s, [], s) && AfterParams(s, [], s) && AfterElements(s, [], s)
    ensures ParamMap([]) == map[] && ElementMap([]) == map[]
    ensures ScanValue([]).None?
  {
    hide ScanParams, ScanElements;
    assert forall v: string :: [] + v == v;
    assert forall v: seq<Param> :: [] + v == v;
    assert forall v: seq<Element> :: [] + v == v;
  }

  ghost predicate AfterParams(whole: string, read: seq<Param>, rest: string) {
    && (ScanParams(whole).None? <==> ScanParams(rest).None?)
    && (ScanParams(whole).Some? ==>
          ScanParams(whole) == Some((read + ScanParams(rest).value.0, ScanParams(rest).value.1)))
  }

  /** One round of the parameter loop, for the text `t` behind the space. */
  lemma ReadParam(whole: string, read: seq<Param>, s: string)
    requires AfterParams(whole, read, s)
    ensures s == [] || s[0] != ' ' ==> ScanParams(whole) == Some((read, s))
    ensures s != [] && s[0] == ' ' ==>
              var t := s[1..];
              var k := NameLength(t);
              if k + 1 >= |t| || t[k + 1] != '"' then ScanParams(whole) == Some((read, t))
              else
                var v := ScanValue(t[k + 2..]);
                if v.None? then ScanParams(whole).None?
                else AfterParams(whole, read + [Param(t[..k], v.value.0)], v.value.1)
  {
    hide ScanParams, ScanValue, NameLength;
    ParamsStep(s);
    assert read + [] == read;
    assert forall p: Param, ps: seq<Param> :: read + ([p] + ps) == (read + [p]) + ps;
  }

  /** The same, by index into the text. */
  lemma ReadParamAt(text: string, start: nat, read: seq<Param>, j: nat)
    requires start <= |text| && j < |text| && text[j] == ' ' && AfterParams(text[start..], read, text[j..])
    ensures var k := j + 1 + NameLength(text[j + 1..]);
            if k + 1 >= |text| || text[k + 1] != '"' then
              ScanParams(text[start..]) == Some((read, text[j + 1..]))
            else
              var v := ScanValue(text[k + 2..]);
              if v.None? then ScanParams(text[start..]).None?
              else AfterParams(text[start..], read + [Param(text[j + 1..k], v.value.0)], v.value.1)
  {
    hide ScanParams, ScanValue, NameLength, AfterParams;
    ReadParam(text[start..], read, text[j..]);
    var t, n := text[j + 1..], NameLength(text[j + 1..]);
    assert text[j..][1..] == t;
    assert t[..n] == text[j + 1..j + 1 + n];
    if n + 1 < |t| { assert t[n + 2..] == text[j + 1 + n + 2..]; }
  }

  /** `text[j:k]` up to the `=` that ends the parameter name. */
  method ParseName(text: string, j: nat) returns (k: nat)
    requires j <= |text|
    ensures k == j + NameLength(text[j..])
  {
    k := j;
    while k < |text| && text[k] != '='
      invariant j <= k <= |text|
      invariant NameLength(text[j..]) == k - j + NameLength(text[k..])
    {
      assert text[k..][1..] == text[k + 1..];
      k := k + 1;
    }
  }

  /** The parameter loop: from the end of the id to the character that should be `]`. */
  method ParseParams(text: string, start: nat) returns (params: map<string, string>, j: nat, ghost list: seq<Param>)
    requires start <= |text|
    ensures params == ParamMap(list)
    ensures ScanParams(text[start..]).None? ==> j == |text| + 1
    ensures ScanParams(text[start..]).Some? ==>
              j <= |text| && ScanParams(text[start..]) == Some((list, text[j..]))
  {
    hide ScanParams, ScanValue, NameLength, AfterParams, ParamMap;
    params, j, list := map[], start, [];
    NothingRead(text[start..]);
    while j < |text| && text[j] == ' '
      invariant start <= j <= |text| + 1
      invariant params == ParamMap(list)
      invariant j == |text| + 1 ==> ScanParams(text[start..]).None?
      invariant j <= |text| ==> AfterParams(text[start..], list, text[j..])
    {
      ReadParamAt(text, start, list, j);
      j := j + 1;
      var k := ParseName(text, j);
      var name := text[j..k];
      if k + 1 >= |text| || text[k + 1] != '"' {
        return;
      }
      var value, close := ParseValue(text, k + 2);
      assert close < |text| ==> AfterParams(text[start..], list + [Param(name, value)], text[close + 1..]);
      AddParam(list, Param(name, value));
      params, list := params[name := value], list + [Param(name, value)];
      j := close + 1;
    }
    if j <= |text| {
      ReadParam(text[start..], list, text[j..]);
    }
  }

  lemma AddParam(ps: seq<Param>, p: Param)
    ensures ParamMap(ps + [p]) == ParamMap(ps)[p.name := p.value]
  {
    assert (ps + [p])[..|ps|] == ps;
  }

  ghost predicate AfterElements(whole: string, read: seq<Element>, rest: string) {
    && (ScanElements(whole).None? <==> ScanElements(rest).None?)
    && (ScanElements(whole).Some? ==>
          ScanElements(whole) == Some((read + ScanElements(rest).value.0, ScanElements(rest).value.1)))
  }

  lemma ReadElement(whole: string, read: seq<Element>, s: string)
    requires AfterElements(whole, read, s)
    ensures s == [] || s[0] != '[' ==> ScanElements(whole) == Some((read, s))
    ensures s != [] && s[0] == '[' ==>
              var k := IdLength(s[1..]);
              var ps := ScanParams(s[1..][k..]);
              if ps.None? || ps.value.1 == [] || ps.value.1[0] != ']' then ScanElements(whole).None?
              else AfterElements(whole, read + [Element(s[1..][..k], ps.value.0)], ps.value.1[1..])
  {
    hide ScanElements, ScanParams, IdLength;
    ElementsStep(s);
    assert read + [] == read;
    assert forall e: Element, es: seq<Element> :: read + ([e] + es) == (read + [e]) + es;
  }

  /** The same, by index into the text. */
  lemma ReadElementAt(text: string, read: seq<Element>, i: nat)
    requires i < |text| && text[i] == '[' && AfterElements(text, read, text[i..])
    ensures var j := i + 1 + IdLength(text[i + 1..]);
            var ps := ScanParams(text[j..]);
            if ps.None? || ps.value.1 == [] || ps.value.1[0] != ']' then ScanElements(text).None?
            else AfterElements(text, read + [Element(text[i + 1..j], ps.value.0)], ps.value.1[1..])
  {
    hide ScanElements, ScanParams, IdLength, AfterElements;
    ReadElement(text, read, text[i..]);
    var u, k := text[i + 1..], IdLength(text[i + 1..]);
    assert text[i..][1..] == u;
    assert u[..k] == text[i + 1..i + 1 + k] && u[k..] == text[i + 1 + k..];
  }

  /** `text[i:j]` up to the space or `]` that ends the id. */
  method ParseId(text: string, i: nat) returns (j: nat)
    requires i <= |text|
    ensures j == i + IdLength(text[i..])
  {
    j := i;
    while j < |text| && !EndsId(text[j])
      invariant i <= j <= |text|
      invariant IdLength(text[i..]) == j - i + IdLength(text[j..])
    {
      assert text[j..][1..] == text[j + 1..];
      j := j + 1;
    }
  }

  /** `_parse_structured_data`: for every text, `raw + remainder` is the text. */
  method ParseStructuredData(text: string)
    returns (raw: string, remainder: string, parsed: map<string, map<string, string>>)
    ensures Parsed(raw, remainder, parsed) == Parse(text)
    ensures raw + remainder == text
    ensures ScanElements(text).None? ==> raw == "" && remainder == text && parsed == map[]
    ensures ScanElements(text).Some? ==> remainder == ScanElements(text).value.1
  {
    hide ScanElements, ScanParams, IdLength, AfterElements, ElementMap, ParamMap;
    parsed := map[];
    var i := 0;
    ghost var list: seq<Element> := [];
    NothingRead(text);
    assert text[0..] == text;
    while i < |text| && text[i] == '['
      invariant 0 <= i <= |text|
      invariant parsed == ElementMap(list)
      invariant AfterElements(text, list, text[i..])
    {
      ReadElementAt(text, list, i);
      var j := ParseId(text, i + 1);
      var id := text[i + 1..j];
      ghost var ps;
      var params;
      params, j, ps := ParseParams(text, j);
      if j < |text| && text[j] == ']' {
        j := j + 1;
      } else {
        return "", text, map[];
      }
      assert text[j - 1..][1..] == text[j..];
      parsed := parsed[id := params];
      AddElement(list, Element(id, ps));
      list := list + [Element(id, ps)];
      i := j;
    }
    ReadElement(text, list, text[i..]);
    raw, remainder := text[..i], text[i..];
  }

  lemma AddElement(es: seq<Element>, e: Element)
    ensures ElementMap(es + [e]) == ElementMap(es)[e.id := ParamMap(e.params)]
  {
    assert (es + [e])[..|es|] == es;
  }

  // ----- parsing undoes printing

  lemma {:induction false} ScanEscaped(v: string, rest: string)
    ensures ScanValue(Escape(v) + (['"'] + rest)) == Some((v, rest))
  {
    hide ScanValue;
    var s := Escape(v) + (['"'] + rest);
    if v == [] {
      assert s == ['"'] + rest && s[1..] == rest;
      ValueStep(s);
    } else {
      ScanEscaped(v[1..], rest);
      var tail := Escape(v[1..]) + (['"'] + rest);
      ValueStep(s);
      if MustEscape(v[0]) {
        assert s == ['\\', v[0]] + tail && s[2..] == tail;
      } else {
        assert s == [v[0]] + tail && s[1..] == tail;
      }
      assert [v[0]] + v[1..] == v;
    }
  }

  lemma {:induction false} NameLengthOf(name: string, rest: string)
    requires '=' !in name && rest != [] && rest[0] == '='
    ensures NameLength(name + rest) == |name|
  {
    var s := name + rest;
    assert forall i :: 0 <= i < |name| ==> s[i] == name[i];
    assert s[|name|] == '=';
  }

  lemma {:induction false} ScanPrintedParams(ps: seq<Param>, rest: string)
    requires forall i :: 0 <= i < |ps| ==> '=' !in ps[i].name
    requires rest != [] && rest[0] == ']'
    ensures ScanParams(PrintParams(ps) + rest) == Some((ps, rest))
  {
    hide ScanParams, ScanValue, NameLength, Escape;
    ParamsStep(PrintParams(ps) + rest);
    if ps == [] {
      assert PrintParams(ps) + rest == rest;
    } else {
      var p, more := ps[0], PrintParams(ps[1..]) + rest;
      ScanPrintedParams(ps[1..], rest);
      ScanEscaped(p.value, more);
      var quoted := Escape(p.value) + (['"'] + more);
      var t := p.name + (['=', '"'] + quoted);
      NameLengthOf(p.name, ['=', '"'] + quoted);
      assert PrintParams(ps) + rest == [' '] + t;
      assert ([' '] + t)[1..] == t;
      assert t[..|p.name|] == p.name && t[|p.name| + 1] == '"' && t[|p.name| + 2..] == quoted;
      assert [p] + ps[1..] == ps;
    }
  }

  lemma {:induction false} IdLengthOf(id: string, rest: string)
    requires ' ' !in id && ']' !in id && rest != [] && EndsId(rest[0])
    ensures IdLength(id + rest) == |id|
  {
    var s := id + rest;
    assert forall i :: 0 <= i < |id| ==> s[i] == id[i] && !EndsId(id[i]);
    assert s[|id|] == rest[0];
  }

  /** Any printed list of elements is read back, whatever follows it, unless that starts another element. */
  lemma {:induction false} ScanPrinted(es: seq<Element>, rest: string)
    requires forall i :: 0 <= i < |es| ==> Printable(es[i])
    requires rest != [] ==> rest[0] != '['
    ensures ScanElements(Print(es) + rest) == Some((es, rest))
  {
    hide ScanElements, ScanParams, IdLength, PrintParams, Printable, Print;
    PrintStep(es, rest);
    ElementsStep(Print(es) + rest);
    if es == [] {
    } else {
      var e, more := es[0], Print(es[1..]) + rest;
      ScanPrinted(es[1..], rest);
      var body := PrintParams(e.params) + ([']'] + more);
      PrintableMeaning(e);
      ScanPrintedParams(e.params, [']'] + more);
      PrintedParamsEndId(e.params, [']'] + more);
      IdLengthOf(e.id, body);
      assert (e.id + body)[..|e.id|] == e.id && (e.id + body)[|e.id|..] == body;
      assert ([']'] + more)[1..] == more;
      assert [e] + es[1..] == es;
    }
  }

  lemma PrintStep(es: seq<Element>, rest: string)
    ensures es == [] ==> Print(es) + rest == rest
    ensures es != [] ==>
              var s := es[0].id + (PrintParams(es[0].params) + ([']'] + (Print(es[1..]) + rest)));
              Print(es) + rest == ['['] + s && (Print(es) + rest)[1..] == s
  {
  }

  lemma PrintableMeaning(e: Element)
    requires Printable(e)
    ensures ' ' !in e.id && ']' !in e.id
    ensures forall i :: 0 <= i < |e.params| ==> '=' !in e.params[i].name
  {
  }

  lemma PrintedParamsEndId(ps: seq<Param>, rest: string)
    requires rest != [] && rest[0] == ']'
    ensures PrintParams(ps) + rest != [] && EndsId((PrintParams(ps) + rest)[0])
  {
  }

  /** `_parse_structured_data` undoes the printer: same dictionary, same raw text, same remainder. */
  lemma ParseUndoesPrint(es: seq<Element>, rest: string)
    requires forall i :: 0 <= i < |es| ==> Printable(es[i])
    requires rest != [] ==> rest[0] != '['
    ensures Parse(Print(es) + rest) == Parsed(Print(es), rest, ElementMap(es))
  {
    ScanPrinted(es, rest);
    var text := Print(es) + rest;
    assert text[..|text| - |rest|] == Print(es) && text[|text| - |rest|..] == rest;
  }

  /** With distinct ids and names every printed value can be looked up. */
  lemma {:induction false} LookUp(es: seq<Element>, i: nat, k: nat)
    requires i < |es| && k < |es[i].params|
    requires forall a, b :: 0 <= a < b < |es| ==> es[a].id != es[b].id
    requires forall a, b :: 0 <= a < b < |es[i].params| ==> es[i].params[a].name != es[i].params[b].name
    ensures es[i].id in ElementMap(es)
    ensures var m, p := ElementMap(es)[es[i].id], es[i].params[k];
            p.name in m && m[p.name] == p.value
  {
    if i < |es| - 1 {
      LookUp(es[..|es| - 1], i, k);
    } else {
      LookUpParam(es[i].params, k);
    }
  }

  lemma {:induction false} LookUpParam(ps: seq<Param>, k: nat)
    requires k < |ps|
    requires forall a, b :: 0 <= a < b < |ps| ==> ps[a].name != ps[b].name
    ensures ps[k].name in ParamMap(ps) && ParamMap(ps)[ps[k].name] == ps[k].value
  {
    if |ps| - 1 <= k {
    } else {
      LookUpParam(ps[..|ps| - 1], k);
    }
  }

  // ----- escapes and malformed text

  /** A backslash escapes a quote, a backslash or a closing bracket, and stands for itself before anything else. */
  lemma ReadEscape(c: char, s: string)
    ensures var escaped := c == '"' || c == '\\' || c == ']';
            var rest := if escaped then ScanValue(s) else ScanValue([c] + s);
            && (ScanValue(['\\', c] + s).None? <==> rest.None?)
            && (rest.Some? ==>
                  ScanValue(['\\', c] + s) == Some(([if escaped then c else '\\'] + rest.value.0, rest.value.1)))
  {
    hide ScanValue;
    var t := ['\\', c] + s;
    ValueStep(t);
    assert t[1..] == [c] + s && t[2..] == s;
  }

  /** The printer escapes exactly these three. */
  lemma PrintEscape(c: char, v: string)
    ensures Escape([c] + v) == (if c == '"' || c == '\\' || c == ']' then ['\\', c] else [c]) + Escape(v)
  {
    assert ([c] + v)[1..] == v;
  }

  lemma {:induction false} ScanUnclosed(v: string)
    ensures ScanValue(Escape(v)).None?
  {
    hide ScanValue;
    if v == [] {
      NothingRead([]);
    } else {
      ScanUnclosed(v[1..]);
      var s, tail := Escape(v), Escape(v[1..]);
      ValueStep(s);
      if MustEscape(v[0]) {
        assert s == ['\\', v[0]] + tail && s[2..] == tail;
      } else {
        assert s == [v[0]] + tail && s[1..] == tail;
      }
    }
  }

  /** A value that is never closed makes all of the text the message. */
  lemma UnclosedIsMessage(id: string, name: string, v: string)
    requires ' ' !in id && ']' !in id && '=' !in name
    ensures var text := ['['] + (id + ([' '] + (name + (['=', '"'] + Escape(v)))));
            Parse(text) == Parsed("", text, map[])
  {
    hide ScanElements, ScanParams, ScanValue, IdLength, NameLength, Escape;
    var e := ['=', '"'] + Escape(v);
    var t := name + e;
    var body := [' '] + t;
    var text := ['['] + (id + body);
    ScanUnclosed(v);
    NameLengthOf(name, e);
    assert t[..|name|] == name && t[|name| + 1] == '"' && t[|name| + 2..] == Escape(v);
    assert body[1..] == t;
    ParamsStep(body);
    IdLengthOf(id, body);
    assert text[1..] == id + body && (id + body)[|id|..] == body;
    ElementsStep(text);
  }

  // ----- printing what was parsed

  /** Whatever the parser accepts has printable elements, and stops before anything that opens another. */
  lemma {:induction false} ParsedIsPrintable(s: string)
    requires ScanElements(s).Some?
    ensures forall i :: 0 <= i < |ScanElements(s).value.0| ==> Printable(ScanElements(s).value.0[i])
    ensures var rest := ScanElements(s).value.1;
            rest != [] ==> rest[0] != '['
    decreases |s|
  {
    hide ScanElements, ScanParams, IdLength;
    ElementsStep(s);
    if s == [] || s[0] != '[' {
    } else {
      var k := IdLength(s[1..]);
      var ps := ScanParams(s[1..][k..]);
      ParsedIsPrintable(ps.value.1[1..]);
      ParsedNames(s[1..][k..]);
      forall c | c in s[1..][..k] ensures !EndsId(c) {
        var i :| 0 <= i < k && s[1..][i] == c;
      }
    }
  }

  lemma {:induction false} ParsedNames(s: string)
    requires ScanParams(s).Some?
    ensures forall i :: 0 <= i < |ScanParams(s).value.0| ==> '=' !in ScanParams(s).value.0[i].name
    decreases |s|
  {
    hide ScanParams, ScanValue, NameLength;
    ParamsStep(s);
    if s == [] || s[0] != ' ' {
    } else {
      var t := s[1..];
      var k := NameLength(t);
      if k + 1 < |t| && t[k + 1] == '"' {
        ParsedNames(ScanValue(t[k + 2..]).value.1);
        assert '=' !in t[..k];
      }
    }
  }

  /** Printing what was parsed is a normal form: it parses to the same elements and the same remainder. */
  lemma PrintNormalises(text: string)
    requires ScanElements(text).Some?
    ensures var r := ScanElements(text).value;
            Parse(Print(r.0) + r.1) == Parsed(Print(r.0), Parse(text).remainder, Parse(text).sd)
  {
    hide ScanElements;
    ParsedIsPrintable(text);
    ParseUndoesPrint(ScanElements(text).value.0, ScanElements(text).value.1);
  }
}
