/** JSON values as JavaScript holds them, the text `JSON.stringify` writes (RFC 8259, sections 4 and 7)
    and a reader of that text. Texts and strings are sequences of UTF-16 code units. */
module Json {
  import opened Wrappers
  import Text

  type Unit = u: int | 0 <= u < 0x10000

  type Units = seq<Unit>

  datatype Value =
    | Null | Bool(b: bool) | Num(n: int) | Str(s: Units) | Arr(items: seq<Value>) | Obj(members: seq<Member>)

  datatype Member = Member(key: Units, value: Value)

  const QUOTE: Unit := 34
  const BACKSLASH: Unit := 92
  const COMMA: Unit := 44
  const COLON: Unit := 58
  const MINUS: Unit := 45
  const LBRACKET: Unit := 91
  const RBRACKET: Unit := 93
  const LBRACE: Unit := 123
  const RBRACE: Unit := 125
  const LETTER_U: Unit := 117
  const NEWLINE: Unit := 10
  const SPACE: Unit := 32

  predicate IsAscii(s: string) {
    forall i :: 0 <= i < |s| ==> s[i] as int < 128
  }

  function Ascii(s: string): (r: Units)
    requires IsAscii(s)
    ensures |r| == |s| && forall i :: 0 <= i < |s| ==> r[i] == s[i] as int
  {
    seq(|s|, i requires 0 <= i < |s| => s[i] as int)
  }

  /* ----- writing ----- */

  predicate Lead(u: Unit) { 0xD800 <= u < 0xDC00 }

  predicate Trail(u: Unit) { 0xDC00 <= u < 0xE000 }

  predicate IsDigit(u: Unit) { 48 <= u <= 57 }

  function HexDigit(d: int): Unit
    requires 0 <= d < 16
  {
    if d < 10 then 48 + d else 87 + d
  }

  function EscapeUnit(u: Unit): Units {
    if u == QUOTE || u == BACKSLASH then [BACKSLASH, u]
    else if u == 8 then [BACKSLASH, 98]
    else if u == 9 then [BACKSLASH, 116]
    else if u == 10 then [BACKSLASH, 110]
    else if u == 12 then [BACKSLASH, 102]
    else if u == 13 then [BACKSLASH, 114]
    else if u < 32 || Lead(u) || Trail(u) then
      [BACKSLASH, LETTER_U, HexDigit(u / 4096), HexDigit(u / 256 % 16), HexDigit(u / 16 % 16), HexDigit(u % 16)]
    else [u]
  }

  /** A unit stands for itself where it may; quotes, backslashes and five control characters take a letter
      escape; other control characters and lone surrogates take four hexadecimal digits, in lower case. */
  lemma EscapesAreShortest(u: Unit)
    ensures var e, named := EscapeUnit(u), u in {8, 9, 10, 12, 13, QUOTE, BACKSLASH};
      && (|e| == 1 <==> u >= 32 && !(0xD800 <= u < 0xE000) && !named)
      && (|e| == 2 <==> named)
      && (|e| != 1 && |e| != 2 ==> |e| == 6)
      && forall i :: 2 <= i < |e| ==> 48 <= e[i] <= 57 || 97 <= e[i] <= 102
  {
  }

  /** Surrogate pairs are written as they are, lone surrogates as escapes. */
  function Escape(s: Units): Units {
    if s == [] then []
    else if |s| > 1 && Lead(s[0]) && Trail(s[1]) then s[..2] + Escape(s[2..])
    else EscapeUnit(s[0]) + Escape(s[1..])
  }

  function Quoted(s: Units): Units {
    [QUOTE] + Escape(s) + [QUOTE]
  }

  function Serialize(v: Value): (t: Units)
    ensures t != [] && t[0] != RBRACKET
    decreases v
  {
    match v
    case Null => Ascii("null")
    case Bool(b) => if b then Ascii("true") else Ascii("false")
    case Num(n) => Ascii(Text.Decimal(n))
    case Str(s) => Quoted(s)
    case Arr(items) => if items == [] then [LBRACKET, RBRACKET] else [LBRACKET] + SerializeItems(items)
    case Obj(members) => if members == [] then [LBRACE, RBRACE] else [LBRACE] + SerializeMembers(members)
  }

  /** The items of an array with their commas and the closing bracket. */
  function SerializeItems(items: seq<Value>): Units
    requires items != []
    decreases items
  {
    Serialize(items[0]) + if |items| == 1 then [RBRACKET] else [COMMA] + SerializeItems(items[1..])
  }

  function SerializeMembers(members: seq<Member>): Units
    requires members != []
    decreases members
  {
    Quoted(members[0].key) + [COLON] + Serialize(members[0].value)
    + if |members| == 1 then [RBRACE] else [COMMA] + SerializeMembers(members[1..])
  }

  /** A new line indented to a depth, where the text is indented at all. */
  function Break(gap: nat, depth: nat): (t: Units)
    ensures forall i :: 0 <= i < |t| ==> IsWhite(t[i])
  {
    if gap == 0 then [] else [NEWLINE] + seq(gap * depth, _ => SPACE)
  }

  /** The space after a colon. */
  function Space(gap: nat): (t: Units)
    ensures forall i :: 0 <= i < |t| ==> IsWhite(t[i])
  {
    if gap == 0 then [] else [SPACE]
  }

  /** `JSON.stringify(v, null, gap)` of a value at some depth; with no gap it is `Serialize`. */
  function Pretty(v: Value, gap: nat, depth: nat): (t: Units)
    ensures t != [] && t[0] != RBRACKET && !IsWhite(t[0])
    decreases v
  {
    match v
    case Null => Ascii("null")
    case Bool(b) => if b then Ascii("true") else Ascii("false")
    case Num(n) => Ascii(Text.Decimal(n))
    case Str(s) => Quoted(s)
    case Arr(items) =>
      if items == [] then [LBRACKET, RBRACKET] else [LBRACKET] + PrettyItems(items, gap, depth + 1)
    case Obj(members) =>
      if members == [] then [LBRACE, RBRACE] else [LBRACE] + PrettyMembers(members, gap, depth + 1)
  }

  function PrettyItems(items: seq<Value>, gap: nat, depth: nat): Units
    requires items != [] && depth > 0
    decreases items
  {
    Break(gap, depth) + Pretty(items[0], gap, depth)
    + if |items| == 1 then Break(gap, depth - 1) + [RBRACKET] else [COMMA] + PrettyItems(items[1..], gap, depth)
  }

  /** The text of a member, given the space after its colon, the text of its value and what follows. */
  function PrettyMember(key: Units, space: Units, value: Units, end: Units): (t: Units)
    ensures t != [] && t[0] == QUOTE
  {
    [QUOTE] + (Escape(key) + ([QUOTE] + ([COLON] + (space + (value + end)))))
  }

  function PrettyMembers(members: seq<Member>, gap: nat, depth: nat): Units
    requires members != [] && depth > 0
    decreases members
  {
    var end := if |members| == 1 then Break(gap, depth - 1) + [RBRACE]
      else [COMMA] + PrettyMembers(members[1..], gap, depth);
    Break(gap, depth) + PrettyMember(members[0].key, Space(gap), Pretty(members[0].value, gap, depth), end)
  }

  lemma {:induction false} PrettyIsSerialize(v: Value, depth: nat)
    ensures Pretty(v, 0, depth) == Serialize(v)
    decreases v
  {
    match v {
      case Arr(items) => if items != [] { PrettyItemsAre(items, depth + 1); }
      case Obj(members) => if members != [] { PrettyMembersAre(members, depth + 1); }
      case _ =>
    }
  }

  lemma {:induction false} PrettyItemsAre(items: seq<Value>, depth: nat)
    requires items != [] && depth > 0
    ensures PrettyItems(items, 0, depth) == SerializeItems(items)
    decreases items
  {
    PrettyIsSerialize(items[0], depth);
    if |items| > 1 { PrettyItemsAre(items[1..], depth); }
  }

  lemma {:induction false} PrettyMembersAre(members: seq<Member>, depth: nat)
    requires members != [] && depth > 0
    ensures PrettyMembers(members, 0, depth) == SerializeMembers(members)
    decreases members
  {
    hide Pretty, Serialize, Escape;
    PrettyIsSerialize(members[0].value, depth);
    if |members| > 1 { PrettyMembersAre(members[1..], depth); }
    var end := if |members| == 1 then [RBRACE] else [COMMA] + SerializeMembers(members[1..]);
    CompactMember(members[0].key, Serialize(members[0].value), end);
  }

  lemma CompactMember(key: Units, value: Units, end: Units)
    ensures [] + PrettyMember(key, [], value, end) == Quoted(key) + [COLON] + value + end
  {
    hide Escape;
  }

  /* ----- reading ----- */

  predicate IsWhite(u: Unit) {
    u == SPACE || u == NEWLINE || u == 9 || u == 13
  }

  /** What follows the insignificant white space. */
  function Skip(t: Units): (r: Units)
    ensures |r| <= |t| && (r != [] ==> !IsWhite(r[0]))
  {
    if t != [] && IsWhite(t[0]) then Skip(t[1..]) else t
  }

  function HexValue(u: Unit): (r: Option<int>)
    ensures r.Some? ==> 0 <= r.value < 16
  {
    if IsDigit(u) then Some(u - 48)
    else if 97 <= u <= 102 then Some(u - 87)
    else if 65 <= u <= 70 then Some(u - 55)
    else None
  }

  /** The unit an escape stands for and the length of the escape, given what follows the backslash. */
  function ReadEscape(t: Units): (r: Option<(Unit, nat)>)
    ensures r.Some? ==> 0 < r.value.1 <= |t|
  {
    if t == [] then None
    else if t[0] == QUOTE || t[0] == BACKSLASH || t[0] == 47 then Some((t[0], 1))
    else if t[0] == 98 then Some((8, 1))
    else if t[0] == 116 then Some((9, 1))
    else if t[0] == 110 then Some((10, 1))
    else if t[0] == 102 then Some((12, 1))
    else if t[0] == 114 then Some((13, 1))
    else if t[0] == LETTER_U && |t| > 4 then
      match (HexValue(t[1]), HexValue(t[2]), HexValue(t[3]), HexValue(t[4]))
      case (Some(a), Some(b), Some(c), Some(d)) => Some((4096 * a + 256 * b + 16 * c + d, 5))
      case _ => None
    else None
  }

  function Prepend(u: Unit, r: Option<(Units, Units)>): Option<(Units, Units)> {
    if r.Some? then Some(([u] + r.value.0, r.value.1)) else None
  }

  /** The rest of a string, up to its closing quote. */
  function ReadChars(t: Units): (r: Option<(Units, Units)>)
    ensures r.Some? ==> |r.value.1| < |t|
    decreases |t|
  {
    if t == [] || t[0] < 32 then None
    else if t[0] == QUOTE then Some(([], t[1..]))
    else if t[0] == BACKSLASH then
      var e := ReadEscape(t[1..]);
      if e.None? then None else Prepend(e.value.0, ReadChars(t[1 + e.value.1..]))
    else Prepend(t[0], ReadChars(t[1..]))
  }

  function DigitRun(t: Units): (k: nat)
    ensures k <= |t| && forall i :: 0 <= i < k ==> IsDigit(t[i])
  {
    if t != [] && IsDigit(t[0]) then 1 + DigitRun(t[1..]) else 0
  }

  function Chars(t: Units): (s: string)
    requires forall i :: 0 <= i < |t| ==> t[i] < 128
    ensures |s| == |t| && forall i :: 0 <= i < |t| ==> s[i] as int == t[i]
  {
    seq(|t|, i requires 0 <= i < |t| => t[i] as char)
  }

  function ReadNumber(t: Units): (r: Option<(int, Units)>)
    ensures r.Some? ==> |r.value.1| < |t|
  {
    var negative := t != [] && t[0] == MINUS;
    var d := if negative then t[1..] else t;
    var k := DigitRun(d);
    if k == 0 then None
    else
      var n := Text.Spelled(Chars(d[..k]));
      Some((if negative then -n else n, d[k..]))
  }

  function Read(t: Units): (r: Option<(Value, Units)>)
    ensures r.Some? ==> |r.value.1| < |t|
    decreases |t|, 1
  {
    ReadValue(Skip(t))
  }

  function ReadValue(t: Units): (r: Option<(Value, Units)>)
    ensures r.Some? ==> |r.value.1| < |t|
    decreases |t|, 0
  {
    if t == [] then None
    else if Ascii("null") <= t then Some((Null, t[4..]))
    else if Ascii("true") <= t then Some((Bool(true), t[4..]))
    else if Ascii("false") <= t then Some((Bool(false), t[5..]))
    else if t[0] == QUOTE then
      var s := ReadChars(t[1..]);
      if s.None? then None else Some((Str(s.value.0), s.value.1))
    else if t[0] == LBRACKET then
      var u := Skip(t[1..]);
      if u != [] && u[0] == RBRACKET then Some((Arr([]), u[1..]))
      else
        var items := ReadItems(t[1..]);
        if items.None? then None else Some((Arr(items.value.0), items.value.1))
    else if t[0] == LBRACE then
      var u := Skip(t[1..]);
      if u != [] && u[0] == RBRACE then Some((Obj([]), u[1..]))
      else
        var members := ReadMembers(t[1..]);
        if members.None? then None else Some((Obj(members.value.0), members.value.1))
    else
      var n := ReadNumber(t);
      if n.None? then None else Some((Num(n.value.0), n.value.1))
  }

  function ReadItems(t: Units): (r: Option<(seq<Value>, Units)>)
    ensures r.Some? ==> |r.value.1| < |t|
    decreases |t|, 2
  {
    var v := Read(t);
    if v.None? then None
    else
      var u := Skip(v.value.1);
      if u == [] then None
      else if u[0] == RBRACKET then Some(([v.value.0], u[1..]))
      else if u[0] != COMMA then None
      else
        var more := ReadItems(u[1..]);
        if more.None? then None else Some(([v.value.0] + more.value.0, more.value.1))
  }

  function ReadMembers(t: Units): (r: Option<(seq<Member>, Units)>)
    ensures r.Some? ==> |r.value.1| < |t|
    decreases |t|, 2
  {
    var q := Skip(t);
    if q == [] || q[0] != QUOTE then None
    else
      var k := ReadChars(q[1..]);
      if k.None? then None
      else
        var c := Skip(k.value.1);
        if c == [] || c[0] != COLON then None
        else
          var v := Read(c[1..]);
          if v.None? then None
          else
            var u := Skip(v.value.1);
            var m := Member(k.value.0, v.value.0);
            if u == [] then None
            else if u[0] == RBRACE then Some(([m], u[1..]))
            else if u[0] != COMMA then None
            else
              var more := ReadMembers(u[1..]);
              if more.None? then None else Some(([m] + more.value.0, more.value.1))
  }

  /* ----- what is read is what was written ----- */

  lemma HexReadsBack(d: int)
    requires 0 <= d < 16
    ensures HexValue(HexDigit(d)) == Some(d)
  {
  }

  lemma EscapeUnitReadsBack(u: Unit, rest: Units)
    ensures ReadChars(EscapeUnit(u) + rest) == Prepend(u, ReadChars(rest))
  {
    hide ReadEscape, HexDigit, HexValue;
    var e := EscapeUnit(u);
    var t := e + rest;
    assert t[|e|..] == rest;
    if e[0] == BACKSLASH {
      assert ReadEscape(t[1..]) == Some((u, |e| - 1)) by { EscapeReadsBack(u, t[1..]); }
      assert t[1 + (|e| - 1)..] == rest;
    } else {
      assert t[1..] == rest;
    }
  }

  lemma EscapeReadsBack(u: Unit, t: Units)
    requires EscapeUnit(u)[0] == BACKSLASH && EscapeUnit(u)[1..] <= t
    ensures ReadEscape(t) == Some((u, |EscapeUnit(u)| - 1))
  {
    hide HexDigit, HexValue;
    var e := EscapeUnit(u)[1..];
    assert t[0] == e[0];
    if |e| == 5 {
      assert t[1] == e[1] && t[2] == e[2] && t[3] == e[3] && t[4] == e[4];
      HexEscapeReadsBack(u, t);
    }
  }

  lemma HexEscapeReadsBack(u: Unit, t: Units)
    requires |t| > 4 && t[0] == LETTER_U
    requires t[1] == HexDigit(u / 4096) && t[2] == HexDigit(u / 256 % 16)
    requires t[3] == HexDigit(u / 16 % 16) && t[4] == HexDigit(u % 16)
    ensures ReadEscape(t) == Some((u, 5))
  {
    hide HexDigit, HexValue;
    HexReadsBack(u / 4096);
    HexReadsBack(u / 256 % 16);
    HexReadsBack(u / 16 % 16);
    HexReadsBack(u % 16);
    HexSum(u);
  }

  lemma HexSum(u: Unit)
    ensures 4096 * (u / 4096) + 256 * (u / 256 % 16) + 16 * (u / 16 % 16) + u % 16 == u
  {
    assert u / 256 == 16 * (u / 4096) + u / 256 % 16;
    assert u / 16 == 16 * (u / 256) + u / 16 % 16;
  }

  lemma RawUnitReadsBack(u: Unit, rest: Units)
    requires u >= 32 && u != QUOTE && u != BACKSLASH
    ensures ReadChars([u] + rest) == Prepend(u, ReadChars(rest))
  {
    assert ([u] + rest)[1..] == rest;
  }

  lemma {:induction false} CharsReadBack(s: Units, rest: Units)
    ensures ReadChars(Escape(s) + ([QUOTE] + rest)) == Some((s, rest))
    decreases |s|
  {
    hide EscapeUnit, ReadChars, Escape;
    var end := [QUOTE] + rest;
    if s == [] {
      EscapeOnce(s);
      EmptyReadsBack(rest);
      assert Escape(s) + end == end;
    } else if |s| > 1 && Lead(s[0]) && Trail(s[1]) {
      CharsReadBack(s[2..], rest);
      PairUnfolds(s, end);
      PairReadsBack(s[0], s[1], Escape(s[2..]) + end);
      assert s == [s[0]] + ([s[1]] + s[2..]);
    } else {
      CharsReadBack(s[1..], rest);
      UnitUnfolds(s, end);
      EscapeUnitReadsBack(s[0], Escape(s[1..]) + end);
      assert s == [s[0]] + s[1..];
    }
  }

  lemma PairUnfolds(s: Units, end: Units)
    requires |s| > 1 && Lead(s[0]) && Trail(s[1])
    ensures Escape(s) + end == [s[0]] + ([s[1]] + (Escape(s[2..]) + end))
  {
    hide EscapeUnit, Escape;
    var rest := Escape(s[2..]);
    assert Escape(s) == ([s[0]] + [s[1]]) + rest by {
      EscapeOnce(s);
      assert s[..2] == [s[0]] + [s[1]];
    }
    Associate([s[0]] + [s[1]], rest, end);
    Associate([s[0]], [s[1]], rest + end);
  }

  lemma UnitUnfolds(s: Units, end: Units)
    requires s != [] && !(|s| > 1 && Lead(s[0]) && Trail(s[1]))
    ensures Escape(s) + end == EscapeUnit(s[0]) + (Escape(s[1..]) + end)
  {
    hide EscapeUnit, Escape;
    EscapeOnce(s);
    Associate(EscapeUnit(s[0]), Escape(s[1..]), end);
  }

  lemma EscapeOnce(s: Units)
    ensures Escape(s) == if s == [] then []
      else if |s| > 1 && Lead(s[0]) && Trail(s[1]) then s[..2] + Escape(s[2..])
      else EscapeUnit(s[0]) + Escape(s[1..])
  {
    hide EscapeUnit;
  }

  lemma Associate(a: Units, b: Units, c: Units)
    ensures (a + b) + c == a + (b + c)
  {
  }

  lemma PairReadsBack(lead: Unit, trail: Unit, rest: Units)
    requires Lead(lead) && Trail(trail)
    ensures ReadChars([lead] + ([trail] + rest)) == Prepend(lead, Prepend(trail, ReadChars(rest)))
  {
    hide ReadChars;
    RawUnitReadsBack(trail, rest);
    RawUnitReadsBack(lead, [trail] + rest);
  }

  lemma EmptyReadsBack(rest: Units)
    ensures ReadChars([QUOTE] + rest) == Some(([], rest))
  {
    assert ([QUOTE] + rest)[1..] == rest;
  }

  predicate Delimited(rest: Units) {
    rest == [] || !IsDigit(rest[0])
  }

  lemma {:induction false} DigitRunStops(d: Units, rest: Units)
    requires (forall i :: 0 <= i < |d| ==> IsDigit(d[i])) && Delimited(rest)
    ensures DigitRun(d + rest) == |d|
  {
    if d != [] {
      DigitRunStops(d[1..], rest);
      assert (d + rest)[1..] == d[1..] + rest;
    } else {
      assert d + rest == rest;
    }
  }

  lemma NumberReadsBack(n: int, rest: Units)
    requires Delimited(rest)
    ensures ReadNumber(Ascii(Text.Decimal(n)) + rest) == Some((n, rest))
  {
    hide Text.Natural, Text.Spelled, DigitRun;
    var s := Text.Natural(if n < 0 then -n else n);
    var t := Ascii(Text.Decimal(n)) + rest;
    var d := Ascii(s);
    assert t[0] == MINUS <==> n < 0;
    assert (if n < 0 then t[1..] else t) == d + rest;
    DigitRunStops(d, rest);
    assert (d + rest)[..|d|] == d && (d + rest)[|d|..] == rest;
    assert Chars(d) == s;
    Text.NaturalIsSpelled(if n < 0 then -n else n);
  }

  /** White space before a value is skipped. */
  lemma {:induction false} SkipsWhite(white: Units, t: Units)
    requires forall i :: 0 <= i < |white| ==> IsWhite(white[i])
    requires t != [] ==> !IsWhite(t[0])
    ensures Skip(white + t) == t
  {
    if white != [] {
      SkipsWhite(white[1..], t);
      assert (white + t)[1..] == white[1..] + t;
    } else {
      assert white + t == t;
    }
  }

  /** A reader gets back the very value from its indented text, whatever white space precedes it and
      whatever delimiter follows. */
  lemma {:induction false} PrettyReadsBack(v: Value, gap: nat, depth: nat, white: Units, rest: Units)
    requires Delimited(rest) && forall i :: 0 <= i < |white| ==> IsWhite(white[i])
    ensures Read(white + (Pretty(v, gap, depth) + rest)) == Some((v, rest))
    decreases v
  {
    hide Pretty, ReadValue, IsWhite;
    SkipsWhite(white, Pretty(v, gap, depth) + rest);
    match v {
      case Null => WordReadsBack(v, gap, depth, rest);
      case Bool(b) => WordReadsBack(v, gap, depth, rest);
      case Num(n) =>
        NumberReadsBack(n, rest);
        LeafReadsBack(v, gap, depth, rest);
      case Str(s) =>
        CharsReadBack(s, rest);
        LeafReadsBack(v, gap, depth, rest);
      case Arr(items) =>
        if items != [] { ItemsReadBack(items, gap, depth + 1, rest); }
        ArrReadsBack(items, gap, depth, rest);
      case Obj(members) =>
        if members != [] { MembersReadBack(members, gap, depth + 1, rest); }
        ObjReadsBack(members, gap, depth, rest);
    }
  }

  lemma WordReadsBack(v: Value, gap: nat, depth: nat, rest: Units)
    requires v.Null? || v.Bool?
    ensures ReadValue(Pretty(v, gap, depth) + rest) == Some((v, rest))
  {
    hide ReadChars, ReadItems, ReadMembers, ReadNumber, Skip;
    var word := Pretty(v, gap, depth);
    var t := word + rest;
    assert t[0] == word[0] && word <= t && t[|word|..] == rest;
    assert Ascii("null")[0] == 110 && Ascii("true")[0] == 116 && Ascii("false")[0] == 102;
  }

  lemma LeafReadsBack(v: Value, gap: nat, depth: nat, rest: Units)
    requires v.Num? ==> ReadNumber(Ascii(Text.Decimal(v.n)) + rest) == Some((v.n, rest))
    requires v.Str? ==> ReadChars(Escape(v.s) + ([QUOTE] + rest)) == Some((v.s, rest))
    requires v.Num? || v.Str?
    ensures ReadValue(Pretty(v, gap, depth) + rest) == Some((v, rest))
  {
    hide Escape, ReadChars, ReadItems, ReadMembers, ReadNumber, Text.Decimal, Skip;
    var t := Pretty(v, gap, depth) + rest;
    assert Ascii("null")[0] == 110 && Ascii("true")[0] == 116 && Ascii("false")[0] == 102;
    assert t[0] == Pretty(v, gap, depth)[0];
    assert v.Str? ==> t[1..] == Escape(v.s) + ([QUOTE] + rest);
  }

  lemma ArrReadsBack(items: seq<Value>, gap: nat, depth: nat, rest: Units)
    requires items != [] ==> ReadItems(PrettyItems(items, gap, depth + 1) + rest) == Some((items, rest))
    ensures ReadValue(Pretty(Arr(items), gap, depth) + rest) == Some((Arr(items), rest))
  {
    hide ReadChars, ReadItems, ReadMembers, ReadNumber, PrettyItems, Text.Decimal, Escape, Skip, IsWhite;
    var t := Pretty(Arr(items), gap, depth) + rest;
    assert Ascii("null")[0] == 110 && Ascii("true")[0] == 116 && Ascii("false")[0] == 102;
    assert t[0] == LBRACKET;
    if items == [] {
      NothingInside(RBRACKET, rest);
      assert t[1..] == [RBRACKET] + rest && t[2..] == rest;
    } else {
      FirstOfItems(items, gap, depth + 1, rest);
      assert t[1..] == PrettyItems(items, gap, depth + 1) + rest;
    }
  }

  lemma ObjReadsBack(members: seq<Member>, gap: nat, depth: nat, rest: Units)
    requires members != [] ==> ReadMembers(PrettyMembers(members, gap, depth + 1) + rest) == Some((members, rest))
    ensures ReadValue(Pretty(Obj(members), gap, depth) + rest) == Some((Obj(members), rest))
  {
    hide ReadChars, ReadItems, ReadMembers, ReadNumber, PrettyMembers, Text.Decimal, Escape, Skip, IsWhite;
    var t := Pretty(Obj(members), gap, depth) + rest;
    assert Ascii("null")[0] == 110 && Ascii("true")[0] == 116 && Ascii("false")[0] == 102;
    assert t[0] == LBRACE;
    if members == [] {
      NothingInside(RBRACE, rest);
      assert t[1..] == [RBRACE] + rest && t[2..] == rest;
    } else {
      FirstOfMembers(members, gap, depth + 1, rest);
      assert t[1..] == PrettyMembers(members, gap, depth + 1) + rest;
    }
  }

  lemma NothingInside(close: Unit, rest: Units)
    requires close == RBRACKET || close == RBRACE
    ensures Skip([close] + rest) == [close] + rest && ([close] + rest)[1..] == rest
  {
  }

  lemma FirstOfItems(items: seq<Value>, gap: nat, depth: nat, rest: Units)
    requires items != [] && depth > 0
    ensures var t := Skip(PrettyItems(items, gap, depth) + rest); t != [] && t[0] != RBRACKET
  {
    hide Pretty, Skip, Break;
    var end := if |items| == 1 then Break(gap, depth - 1) + [RBRACKET]
      else [COMMA] + PrettyItems(items[1..], gap, depth);
    var first := Pretty(items[0], gap, depth) + (end + rest);
    assert PrettyItems(items, gap, depth) + rest == Break(gap, depth) + first;
    SkipsWhite(Break(gap, depth), first);
  }

  lemma FirstOfMembers(members: seq<Member>, gap: nat, depth: nat, rest: Units)
    requires members != [] && depth > 0
    ensures var t := Skip(PrettyMembers(members, gap, depth) + rest); t != [] && t[0] == QUOTE
  {
    hide Pretty, Skip, Break, PrettyMember;
    var m := members[0];
    var end := if |members| == 1 then Break(gap, depth - 1) + [RBRACE]
      else [COMMA] + PrettyMembers(members[1..], gap, depth);
    MemberThen(m.key, Space(gap), Pretty(m.value, gap, depth), end, rest);
    var first := PrettyMember(m.key, Space(gap), Pretty(m.value, gap, depth), end + rest);
    assert PrettyMembers(members, gap, depth) + rest == Break(gap, depth) + first;
    SkipsWhite(Break(gap, depth), first);
  }

  lemma MemberThen(key: Units, space: Units, value: Units, end: Units, rest: Units)
    ensures PrettyMember(key, space, value, end) + rest == PrettyMember(key, space, value, end + rest)
  {
    hide Escape;
    Associate(value, end, rest);
    Associate(space, value + end, rest);
    Associate([COLON], space + (value + end), rest);
    Associate([QUOTE], [COLON] + (space + (value + end)), rest);
    Associate(Escape(key), [QUOTE] + ([COLON] + (space + (value + end))), rest);
    Associate([QUOTE], Escape(key) + ([QUOTE] + ([COLON] + (space + (value + end)))), rest);
  }

  lemma {:induction false} ItemsReadBack(items: seq<Value>, gap: nat, depth: nat, rest: Units)
    requires items != [] && depth > 0
    ensures ReadItems(PrettyItems(items, gap, depth) + rest) == Some((items, rest))
    decreases items
  {
    hide Pretty, Read, Skip, Break, IsWhite;
    var close := Break(gap, depth - 1) + [RBRACKET];
    var end := if |items| == 1 then close else [COMMA] + PrettyItems(items[1..], gap, depth);
    var tail := end + rest;
    assert Delimited(tail) by { CloseDelimits(gap, depth - 1, RBRACKET, rest); }
    PrettyReadsBack(items[0], gap, depth, Break(gap, depth), tail);
    assert PrettyItems(items, gap, depth) + rest == Break(gap, depth) + (Pretty(items[0], gap, depth) + tail);
    if |items| == 1 {
      CloseDelimits(gap, depth - 1, RBRACKET, rest);
      assert items == [items[0]];
    } else {
      ItemsReadBack(items[1..], gap, depth, rest);
      CommaStays(PrettyItems(items[1..], gap, depth), rest);
      assert items == [items[0]] + items[1..];
    }
  }

  lemma CommaStays(more: Units, rest: Units)
    ensures var tail := [COMMA] + more + rest;
      Delimited(tail) && Skip(tail) == tail && tail[1..] == more + rest
  {
  }

  /** A closing bracket on its own line. */
  lemma CloseDelimits(gap: nat, depth: nat, close: Unit, rest: Units)
    requires close == RBRACKET || close == RBRACE
    ensures var tail := Break(gap, depth) + [close] + rest;
      && Delimited(tail) && Skip(tail) == [close] + rest && ([close] + rest)[1..] == rest
  {
    assert Break(gap, depth) + [close] + rest == Break(gap, depth) + ([close] + rest);
    SkipsWhite(Break(gap, depth), [close] + rest);
  }

  lemma {:induction false} MembersReadBack(members: seq<Member>, gap: nat, depth: nat, rest: Units)
    requires members != [] && depth > 0
    ensures ReadMembers(PrettyMembers(members, gap, depth) + rest) == Some((members, rest))
    decreases members
  {
    hide Pretty, Read, ReadChars, Skip, Break, IsWhite, PrettyMember, Space, ReadMembers;
    var m := members[0];
    var end := if |members| == 1 then Break(gap, depth - 1) + [RBRACE]
      else [COMMA] + PrettyMembers(members[1..], gap, depth);
    var value, tail := Pretty(m.value, gap, depth), end + rest;
    if |members| > 1 { MembersReadBack(members[1..], gap, depth, rest); }
    EndIs(members, gap, depth, rest);
    PrettyReadsBack(m.value, gap, depth, Space(gap), tail);
    MemberThen(m.key, Space(gap), value, end, rest);
    var first := PrettyMember(m.key, Space(gap), value, tail);
    assert PrettyMembers(members, gap, depth) + rest == Break(gap, depth) + first;
    SkipsWhite(Break(gap, depth), first) by { assert !IsWhite(QUOTE) by { QuoteIsNotWhite(); } }
    MemberStarts(m.key, Space(gap), value, tail);
    CharsReadBack(m.key, [COLON] + (Space(gap) + (value + tail)));
    MembersStep(members, Break(gap, depth) + first, first, Space(gap) + (value + tail), tail, rest);
  }

  lemma QuoteIsNotWhite()
    ensures !IsWhite(QUOTE)
  {
  }

  /** The end of a list of members, read. */
  lemma EndIs(members: seq<Member>, gap: nat, depth: nat, rest: Units)
    requires members != [] && depth > 0
    requires |members| > 1 ==> ReadMembers(PrettyMembers(members[1..], gap, depth) + rest) == Some((members[1..], rest))
    ensures var end := if |members| == 1 then Break(gap, depth - 1) + [RBRACE]
              else [COMMA] + PrettyMembers(members[1..], gap, depth);
      var u := Skip(end + rest);
      && Delimited(end + rest) && u != []
      && (|members| == 1 ==> u[0] == RBRACE && u[1..] == rest)
      && (|members| > 1 ==> u[0] == COMMA && ReadMembers(u[1..]) == Some((members[1..], rest)))
  {
    hide Break, ReadMembers, PrettyMembers, Skip;
    if |members| == 1 {
      CloseDelimits(gap, depth - 1, RBRACE, rest);
    } else {
      CommaStays(PrettyMembers(members[1..], gap, depth), rest);
    }
  }

  /** Where the key and the value of a member stand in its text. */
  lemma MemberStarts(key: Units, space: Units, value: Units, tail: Units)
    ensures var first := PrettyMember(key, space, value, tail);
      && first[0] == QUOTE && first[1..] == Escape(key) + ([QUOTE] + ([COLON] + (space + (value + tail))))
    ensures var c := [COLON] + (space + (value + tail));
      Skip(c) == c && c[1..] == space + (value + tail)
  {
    hide Escape;
  }

  lemma MembersStep(members: seq<Member>, t: Units, first: Units, afterColon: Units, tail: Units, rest: Units)
    requires members != [] && Skip(t) == first && first != [] && first[0] == QUOTE
    requires ReadChars(first[1..]) == Some((members[0].key, [COLON] + afterColon))
    requires Skip([COLON] + afterColon) == [COLON] + afterColon && ([COLON] + afterColon)[1..] == afterColon
    requires Read(afterColon) == Some((members[0].value, tail))
    requires var u := Skip(tail);
      && u != []
      && (|members| == 1 ==> u[0] == RBRACE && u[1..] == rest)
      && (|members| > 1 ==> u[0] == COMMA && ReadMembers(u[1..]) == Some((members[1..], rest)))
    ensures ReadMembers(t) == Some((members, rest))
  {
    hide Read, ReadChars, Skip;
    var m := Member(members[0].key, members[0].value);
    assert m == members[0] && members == [m] + members[1..] && (|members| == 1 ==> members == [m]);
  }

  /** A reader gets back the very value from its text, whatever delimiter follows. */
  lemma ReadsBack(v: Value, rest: Units)
    requires Delimited(rest)
    ensures Read(Serialize(v) + rest) == Some((v, rest))
  {
    hide Pretty, Serialize, Read;
    PrettyIsSerialize(v, 0);
    PrettyReadsBack(v, 0, 0, [], rest);
    assert [] + (Serialize(v) + rest) == Serialize(v) + rest;
  }

  /** Different values have different texts. */
  lemma SerializeInjective(v: Value, w: Value)
    requires Serialize(v) == Serialize(w)
    ensures v == w
  {
    ReadsBack(v, []);
    ReadsBack(w, []);
    assert Serialize(v) + [] == Serialize(w) + [];
  }
}
