/** The recursive-descent parser for band plans, a subset of sections 4 to 7 of RFC 8259. */
module Json {
  import opened Options

  // Text ends with a zero character, as C strings do; positions stand for the pointers of the program.

  datatype Value = Nil | Str(s: string) | Num(d: real) | Obj(o: map<string, Value>) | Arr(a: seq<Value>)

  /** The number at a position, and the position after it, which is the same if there is none. */
  type Strtod = (string, nat) -> (real, nat)

  const ZERO: char := 0 as char

  function At(s: string, p: nat): char {
    if p < |s| then s[p] else ZERO
  }

  predicate Blank(c: char) {
    c == ' ' || c == '\t' || c == '\n' || c == '\r'
  }

  /** Past white space. */
  function Skip(s: string, p: nat): (q: nat)
    requires p <= |s|
    ensures p <= q <= |s|
    decreases |s| - p
  {
    if Blank(At(s, p)) then Skip(s, p + 1) else p
  }

  /** It ends at the first character that is not a space, a tab, a line feed or a carriage return. */
  lemma {:induction false} SkipEnds(s: string, p: nat)
    requires p <= |s|
    ensures At(s, Skip(s, p)) !in " \t\n\r" && forall i :: p <= i < Skip(s, p) ==> s[i] in " \t\n\r"
    decreases |s| - p
  {
    if Blank(At(s, p)) {
      SkipEnds(s, p + 1);
    }
  }

  predicate StartsNumber(c: char) {
    '0' <= c <= '9' || c == '-' || c == '+'
  }

  predicate HasAt(s: string, p: nat, text: string): (has: bool)
    ensures has ==> p + |text| <= |s|
  {
    p + |text| <= |s| && s[p..p + |text|] == text
  }

  lemma FirstOf(s: string, p: nat, text: string)
    requires text != ""
    ensures HasAt(s, p, text) ==> At(s, p) == text[0]
  {
    if HasAt(s, p, text) {
      assert s[p] == s[p..p + |text|][0];
    }
  }

  // ---------- the parser as functions ----------

  ghost predicate Sane(num: Strtod) {
    forall s, p: nat {:trigger num(s, p)} :: p <= |s| ==> p <= num(s, p).1 <= |s|
  }

  /** The characters up to the closing quote; a backslash makes the next one stand for itself. */
  function Chars(s: string, p: nat): (r: Option<(string, nat)>)
    requires p <= |s|
    ensures r.Some? ==> p < r.value.1 <= |s|
    decreases |s| - p
  {
    if At(s, p) == ZERO then None
    else if s[p] == '"' then Some(("", p + 1))
    else
      var q := if s[p] == '\\' then p + 1 else p;
      if At(s, q) == ZERO then None
      else
        var rest := Chars(s, q + 1);
        Behind([s[q]], rest)
  }

  function StringAt(s: string, p: nat): (r: Option<(string, nat)>)
    requires p <= |s|
    ensures r.Some? ==> p < r.value.1 <= |s|
  {
    if At(s, p) != '"' then None else Chars(s, p + 1)
  }

  ghost function ValueAt(num: Strtod, s: string, p: nat): (r: Option<(Value, nat)>)
    requires Sane(num) && p <= |s|
    ensures r.Some? ==> p < r.value.1 <= |s|
    decreases |s| - p, 1
  {
    var q := Skip(s, p);
    var c := At(s, q);
    if c == '"' then
      var r := StringAt(s, q);
      if r.None? then None else Some((Str(r.value.0), r.value.1))
    else if c == '{' then
      var r := ObjectAt(num, s, q);
      if r.None? then None else Some((Obj(r.value.0), r.value.1))
    else if c == '[' then
      var r := ArrayAt(num, s, q);
      if r.None? then None else Some((Arr(r.value.0), r.value.1))
    else if StartsNumber(c) then
      var r := num(s, q);
      if r.1 > q then Some((Num(r.0), r.1)) else None
    else if HasAt(s, q, "null") then Some((Nil, q + 4))
    else if HasAt(s, q, "true") then Some((Nil, q + 4))
    else if HasAt(s, q, "false") then Some((Nil, q + 5))
    else None
  }

  ghost function ArrayAt(num: Strtod, s: string, p: nat): (r: Option<(seq<Value>, nat)>)
    requires Sane(num) && p <= |s|
    ensures r.Some? ==> p < r.value.1 <= |s|
    decreases |s| - p, 0
  {
    var q := Skip(s, p);
    if At(s, q) != '[' then None
    else
      var first := Skip(s, q + 1);
      if At(s, first) == ']' then Some(([], first + 1)) else Elements(num, s, first, [])
  }

  /** The elements from a position on, after those already read. */
  ghost function Elements(num: Strtod, s: string, p: nat, before: seq<Value>): (r: Option<(seq<Value>, nat)>)
    requires Sane(num) && p <= |s|
    ensures r.Some? ==> p < r.value.1 <= |s|
    decreases |s| - p, 2
  {
    var v := ValueAt(num, s, Skip(s, p));
    if v.None? then None
    else
      var q := Skip(s, v.value.1);
      if At(s, q) == ',' then Elements(num, s, q + 1, before + [v.value.0])
      else if At(s, q) == ']' then Some((before + [v.value.0], q + 1))
      else None
  }

  ghost function ObjectAt(num: Strtod, s: string, p: nat): (r: Option<(map<string, Value>, nat)>)
    requires Sane(num) && p <= |s|
    ensures r.Some? ==> p < r.value.1 <= |s|
    decreases |s| - p, 0
  {
    var q := Skip(s, p);
    if At(s, q) != '{' then None
    else
      var first := Skip(s, q + 1);
      if At(s, first) == '}' then Some((map[], first + 1)) else Members(num, s, first, map[])
  }

  /** A key, a colon and a value. */
  ghost function MemberAt(num: Strtod, s: string, p: nat): (r: Option<(string, Value, nat)>)
    requires Sane(num) && p <= |s|
    ensures r.Some? ==> p < r.value.2 <= |s|
    decreases |s| - p, 2
  {
    var key := StringAt(s, Skip(s, p));
    if key.None? then None
    else
      var colon := Skip(s, key.value.1);
      if At(s, colon) != ':' then None
      else
        var v := ValueAt(num, s, Skip(s, colon + 1));
        if v.None? then None else Some((key.value.0, v.value.0, v.value.1))
  }

  /** The members from a position on; a repeated key takes the last value. */
  ghost function Members(num: Strtod, s: string, p: nat, before: map<string, Value>)
    : (r: Option<(map<string, Value>, nat)>)
    requires Sane(num) && p <= |s|
    ensures r.Some? ==> p < r.value.1 <= |s|
    decreases |s| - p, 3
  {
    var m := MemberAt(num, s, p);
    if m.None? then None
    else
      var q := Skip(s, m.value.2);
      if At(s, q) == ',' then Members(num, s, q + 1, before[m.value.0 := m.value.1])
      else if At(s, q) == '}' then Some((before[m.value.0 := m.value.1], q + 1))
      else None
  }

  // ---------- the parser as the program has it ----------

  method SkipWS(s: string, p: nat) returns (q: nat)
    requires p <= |s|
    ensures q == Skip(s, p)
  {
    q := p;
    while Blank(At(s, q))
      invariant q <= |s| && Skip(s, q) == Skip(s, p)
      decreases |s| - q
    {
      q := q + 1;
    }
  }

  function Behind(out: string, rest: Option<(string, nat)>): Option<(string, nat)> {
    if rest.None? then None else Some((out + rest.value.0, rest.value.1))
  }

  lemma BehindNext(out: string, c: char, rest: Option<(string, nat)>)
    ensures Behind(out, Behind([c], rest)) == Behind(out + [c], rest) && Behind("", rest) == rest
    ensures Behind(out, Some(("", 0))) == Some((out, 0))
  {
    assert out + "" == out;
    if rest.Some? {
      assert "" + rest.value.0 == rest.value.0;
      assert out + ([c] + rest.value.0) == (out + [c]) + rest.value.0;
    }
  }

  method ParseString(s: string, p: nat) returns (r: Option<(string, nat)>)
    requires p <= |s|
    ensures r == StringAt(s, p)
  {
    if At(s, p) != '"' {
      return None;
    }
    var q, out := p + 1, "";
    BehindNext("", ' ', Chars(s, q));
    while At(s, q) != ZERO && At(s, q) != '"'
      invariant p < q <= |s|
      invariant StringAt(s, p) == Behind(out, Chars(s, q))
      decreases |s| - q
    {
      if At(s, q) == '\\' {
        q := q + 1;
        if At(s, q) == ZERO {
          return None;
        }
      }
      BehindNext(out, s[q], Chars(s, q + 1));
      out := out + [s[q]];
      q := q + 1;
    }
    if At(s, q) != '"' {
      return None;
    }
    assert out + "" == out;
    return Some((out, q + 1));
  }

  method ParseArr(num: Strtod, s: string, p: nat) returns (r: Option<(seq<Value>, nat)>)
    requires Sane(num) && p <= |s|
    ensures r == ArrayAt(num, s, p)
    decreases |s| - p, 0
  {
    var q := SkipWS(s, p);
    if At(s, q) != '[' {
      return None;
    }
    q := SkipWS(s, q + 1);
    if At(s, q) == ']' {
      return Some(([], q + 1));
    }
    var out: seq<Value> := [];
    while true
      invariant p < q <= |s| && ArrayAt(num, s, p) == Elements(num, s, q, out)
      decreases |s| - q
    {
      var start := SkipWS(s, q);
      var v := ParseValue(num, s, start);
      if v.None? {
        return None;
      }
      out := out + [v.value.0];
      q := SkipWS(s, v.value.1);
      if At(s, q) == ',' {
        q := q + 1;
      } else if At(s, q) == ']' {
        return Some((out, q + 1));
      } else {
        return None;
      }
    }
  }

  method ParseObj(num: Strtod, s: string, p: nat) returns (r: Option<(map<string, Value>, nat)>)
    requires Sane(num) && p <= |s|
    ensures r == ObjectAt(num, s, p)
    decreases |s| - p, 0
  {
    hide MemberAt, Sane;
    var q := SkipWS(s, p);
    if At(s, q) != '{' {
      return None;
    }
    q := SkipWS(s, q + 1);
    if At(s, q) == '}' {
      return Some((map[], q + 1));
    }
    var out: map<string, Value> := map[];
    while true
      invariant p < q <= |s| && ObjectAt(num, s, p) == Members(num, s, q, out)
      decreases |s| - q
    {
      var m := ParseMember(num, s, q);
      if m.None? {
        return None;
      }
      out := out[m.value.0 := m.value.1];
      q := SkipWS(s, m.value.2);
      if At(s, q) == ',' {
        q := q + 1;
      } else if At(s, q) == '}' {
        return Some((out, q + 1));
      } else {
        return None;
      }
    }
  }

  /** The body of the loop over members. */
  method ParseMember(num: Strtod, s: string, p: nat) returns (r: Option<(string, Value, nat)>)
    requires Sane(num) && p <= |s|
    ensures r == MemberAt(num, s, p)
    decreases |s| - p, 2
  {
    var q := SkipWS(s, p);
    var key := ParseString(s, q);
    if key.None? {
      return None;
    }
    q := SkipWS(s, key.value.1);
    if At(s, q) != ':' {
      return None;
    }
    q := SkipWS(s, q + 1);
    var v := ParseValue(num, s, q);
    if v.None? {
      return None;
    }
    return Some((key.value.0, v.value.0, v.value.1));
  }

  method ParseValue(num: Strtod, s: string, p: nat) returns (r: Option<(Value, nat)>)
    requires Sane(num) && p <= |s|
    ensures r == ValueAt(num, s, p)
    decreases |s| - p, 1
  {
    var q := SkipWS(s, p);
    var c := At(s, q);
    if c == '"' {
      var t := ParseString(s, q);
      return if t.None? then None else Some((Str(t.value.0), t.value.1));
    }
    if c == '{' {
      var t := ParseObj(num, s, q);
      return if t.None? then None else Some((Obj(t.value.0), t.value.1));
    }
    if c == '[' {
      var t := ParseArr(num, s, q);
      return if t.None? then None else Some((Arr(t.value.0), t.value.1));
    }
    if StartsNumber(c) {
      var t := num(s, q);
      return if t.1 > q then Some((Num(t.0), t.1)) else None;
    }
    FirstOf(s, q, "null");
    FirstOf(s, q, "true");
    FirstOf(s, q, "false");
    hide HasAt;
    if c == 'n' && HasAt(s, q, "null") {
      return Some((Nil, q + 4));
    }
    if c == 't' && HasAt(s, q, "true") {
      return Some((Nil, q + 4));
    }
    if c == 'f' && HasAt(s, q, "false") {
      return Some((Nil, q + 5));
    }
    return None;
  }
}
