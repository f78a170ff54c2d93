/**
 JSON values and their text, section 7 of RFC 8259: enough of `JSON.stringify` to show that two
 values with one text are one value.
 */
module Json {
  import opened Numbers

  /** Members are in the order the host lists them. */
  datatype Js =
    | Null
    | Bool(on: bool)
    | Num(number: Number)
    | Str(text: string)
    | Arr(items: seq<Js>)
    | Obj(members: seq<Member>)

  datatype Member = Member(key: string, value: Js)

  // ---- numbers ------------------------------------------------------------------------

  predicate NumberChar(c: char) {
    '0' <= c <= '9' || c == '-' || c == '+' || c == '.' || c == 'e'
  }

  /** How the host prints finite numbers: never the same text for two of them. */
  ghost predicate Prints(show: int -> string) {
    && (forall x :: show(x) != "" && forall i | 0 <= i < |show(x)| :: NumberChar(show(x)[i]))
    && (forall x, y :: show(x) == show(y) ==> x == y)
  }

  // ---- strings ------------------------------------------------------------------------

  function Hex(n: nat): char
    requires n < 16
  {
    if n < 10 then '0' + n as char else 'a' + (n - 10) as char
  }

  function Escape(c: char): string {
    if c == '"' then "\\\""
    else if c == '\\' then "\\\\"
    else if c == '\U{08}' then "\\b"
    else if c == '\U{0C}' then "\\f"
    else if c == '\n' then "\\n"
    else if c == '\r' then "\\r"
    else if c == '\t' then "\\t"
    else if c < ' ' then "\\u00" + [Hex(c as nat / 16), Hex(c as nat % 16)]
    else [c]
  }

  // Every writer below puts its value in front of the text that follows it.

  function PutEscaped(s: string, rest: string): string
    decreases |s|
  {
    if s == "" then rest else Escape(s[0]) + PutEscaped(s[1..], rest)
  }

  function PutString(s: string, rest: string): string {
    "\"" + PutEscaped(s, "\"" + rest)
  }

  // ---- values -------------------------------------------------------------------------

  function Put(show: int -> string, v: Js, rest: string): string
    decreases v
  {
    match v
    case Null => "null" + rest
    case Bool(on) => (if on then "true" else "false") + rest
    case Num(n) => (if n.Finite? then show(n.steps) else "null") + rest
    case Str(s) => PutString(s, rest)
    case Arr(items) => "[" + (if items == [] then "]" + rest else Put(show, items[0], PutMore(show, items[1..], rest)))
    case Obj(members) =>
      "{" + (if members == [] then "}" + rest else PutMember(show, members[0], PutMoreMembers(show, members[1..], rest)))
  }

  /** The items after the first, each after its comma, and the closing bracket. */
  function PutMore(show: int -> string, items: seq<Js>, rest: string): string
    decreases items
  {
    if items == [] then "]" + rest else "," + Put(show, items[0], PutMore(show, items[1..], rest))
  }

  function PutMember(show: int -> string, m: Member, rest: string): string
    decreases m
  {
    PutString(m.key, ":" + Put(show, m.value, rest))
  }

  function PutMoreMembers(show: int -> string, members: seq<Member>, rest: string): string
    decreases members
  {
    if members == [] then "}" + rest else "," + PutMember(show, members[0], PutMoreMembers(show, members[1..], rest))
  }

  /** `JSON.stringify`. */
  function Encode(show: int -> string, v: Js): string {
    Put(show, v, "")
  }

  // ---- what a text shows --------------------------------------------------------------

  /** A value as its text shows it: infinities are written `null`. */
  function Shown(v: Js): Js
    decreases v
  {
    match v
    case Num(n) => if n.Finite? then v else Null
    case Arr(items) => Arr(ShownAll(items))
    case Obj(members) => Obj(ShownMembers(members))
    case _ => v
  }

  function ShownAll(items: seq<Js>): seq<Js>
    decreases items
  {
    if items == [] then [] else [Shown(items[0])] + ShownAll(items[1..])
  }

  function ShownMembers(members: seq<Member>): seq<Member>
    decreases members
  {
    if members == [] then [] else [ShownMember(members[0])] + ShownMembers(members[1..])
  }

  function ShownMember(m: Member): Member
    decreases m
  {
    Member(m.key, Shown(m.value))
  }

  /** The text shows everything: no number in the value is infinite. */
  predicate ShowsAll(v: Js) {
    Shown(v) == v
  }

  // ---- unambiguity --------------------------------------------------------------------

  /** What may follow a value inside a text. */
  predicate Delimited(rest: string) {
    rest == "" || rest[0] == ',' || rest[0] == ']' || rest[0] == '}'
  }

  lemma Drop(p: string, s: string, t: string)
    requires p + s == p + t
    ensures s == t
  {
    assert s == (p + s)[|p|..] && t == (p + t)[|p|..];
  }

  lemma HexInjective(m: nat, n: nat)
    requires m < 16 && n < 16 && Hex(m) == Hex(n)
    ensures m == n
  {
  }

  /** No escape is the start of another. */
  lemma EscapePrefixFree(c: char, d: char, s: string, t: string)
    requires Escape(c) + s == Escape(d) + t
    ensures c == d && s == t
  {
    var x, y := Escape(c) + s, Escape(d) + t;
    assert x[0] == Escape(c)[0] && y[0] == Escape(d)[0];
    if Escape(c)[0] == '\\' {
      assert x[1] == Escape(c)[1] && y[1] == Escape(d)[1];
      if Escape(c)[1] == 'u' {
        assert x[4] == Escape(c)[4] && x[5] == Escape(c)[5];
        assert y[4] == Escape(d)[4] && y[5] == Escape(d)[5];
        HexInjective(c as nat / 16, d as nat / 16);
        HexInjective(c as nat % 16, d as nat % 16);
      }
    }
    Drop(Escape(c), s, t);
  }

  /** An escaped character never looks like the closing quote. */
  lemma EscapedStart(s: string, rest: string)
    requires s != ""
    ensures PutEscaped(s, rest) != "" && PutEscaped(s, rest)[0] != '"'
  {
    assert PutEscaped(s, rest)[0] == Escape(s[0])[0];
  }

  lemma {:induction false} EscapedUnambiguous(a: string, b: string, s: string, t: string)
    requires PutEscaped(a, "\"" + s) == PutEscaped(b, "\"" + t)
    ensures a == b && s == t
    decreases |a|
  {
    if a != "" {
      EscapedStart(a, "\"" + s);
    }
    if b != "" {
      EscapedStart(b, "\"" + t);
    }
    if a == "" {
      assert ("\"" + s)[0] == '"';
      Drop("\"", s, t);
    } else {
      assert ("\"" + t)[0] == '"';
      EscapePrefixFree(a[0], b[0], PutEscaped(a[1..], "\"" + s), PutEscaped(b[1..], "\"" + t));
      EscapedUnambiguous(a[1..], b[1..], s, t);
      assert a == [a[0]] + a[1..] && b == [b[0]] + b[1..];
    }
  }

  lemma StringUnambiguous(a: string, b: string, s: string, t: string)
    requires PutString(a, s) == PutString(b, t)
    ensures a == b && s == t
  {
    Drop("\"", PutEscaped(a, "\"" + s), PutEscaped(b, "\"" + t));
    EscapedUnambiguous(a, b, s, t);
  }

  lemma NumberLength(p: string, q: string, s: string, t: string)
    requires p + s == q + t && Delimited(s)
    requires forall i | 0 <= i < |q| :: NumberChar(q[i])
    ensures |p| >= |q|
  {
    var x := p + s;
    assert x[|p|..] == s && x[..|q|] == q;
    assert s != "" ==> x[|p|] == s[0];
  }

  lemma NumberUnambiguous(p: string, q: string, s: string, t: string)
    requires p + s == q + t && Delimited(s) && Delimited(t)
    requires forall i | 0 <= i < |p| :: NumberChar(p[i])
    requires forall i | 0 <= i < |q| :: NumberChar(q[i])
    ensures p == q && s == t
  {
    NumberLength(p, q, s, t);
    NumberLength(q, p, t, s);
    assert p == (p + s)[..|p|] && q == (q + t)[..|q|];
    Drop(p, s, t);
  }

  /** The first character of a value's text tells what kind of value it is. */
  function Kind(c: char): nat {
    if c == 'n' then 0 else if c == 't' then 1 else if c == 'f' then 2 else if c == '"' then 3
    else if c == '[' then 4 else if c == '{' then 5 else if NumberChar(c) then 6 else 7
  }

  function KindOf(v: Js): nat {
    match v
    case Null => 0
    case Bool(on) => if on then 1 else 2
    case Str(_) => 3
    case Arr(_) => 4
    case Obj(_) => 5
    case Num(n) => if n.Finite? then 6 else 0
  }

  lemma Starts(show: int -> string, v: Js, rest: string)
    requires Prints(show)
    ensures Put(show, v, rest) != "" && Kind(Put(show, v, rest)[0]) == KindOf(v)
  {
    if v.Num? && v.number.Finite? {
      assert show(v.number.steps) != "" && NumberChar(show(v.number.steps)[0]);
      assert Put(show, v, rest)[0] == show(v.number.steps)[0];
    }
  }

  lemma AfterItem(show: int -> string, items: seq<Js>, rest: string)
    ensures Delimited(PutMore(show, items, rest))
  {
  }

  lemma AfterMember(show: int -> string, members: seq<Member>, rest: string)
    ensures Delimited(PutMoreMembers(show, members, rest))
  {
  }

  /** A text followed by a delimiter determines what it shows, and what follows it. */
  lemma {:induction false} PutUnambiguous(show: int -> string, v: Js, w: Js, s: string, t: string)
    requires Prints(show) && Delimited(s) && Delimited(t)
    requires Put(show, v, s) == Put(show, w, t)
    ensures Shown(v) == Shown(w) && s == t
    decreases v
  {
    Starts(show, v, s);
    Starts(show, w, t);
    match v
    case Null => Drop("null", s, t);
    case Bool(on) => Drop(if on then "true" else "false", s, t);
    case Num(n) =>
      if n.Finite? {
        NumberUnambiguous(show(n.steps), show(w.number.steps), s, t);
      } else {
        Drop("null", s, t);
      }
    case Str(a) => StringUnambiguous(a, w.text, s, t);
    case Arr(items) => ArrayUnambiguous(show, items, w.items, s, t);
    case Obj(members) => ObjectUnambiguous(show, members, w.members, s, t);
  }

  lemma {:induction false} ArrayUnambiguous(show: int -> string, a: seq<Js>, b: seq<Js>, s: string, t: string)
    requires Prints(show) && Put(show, Arr(a), s) == Put(show, Arr(b), t)
    ensures ShownAll(a) == ShownAll(b) && s == t
    decreases a
  {
    var x := if a == [] then "]" + s else Put(show, a[0], PutMore(show, a[1..], s));
    var y := if b == [] then "]" + t else Put(show, b[0], PutMore(show, b[1..], t));
    Drop("[", x, y);
    if a != [] {
      Starts(show, a[0], PutMore(show, a[1..], s));
    }
    if b != [] {
      Starts(show, b[0], PutMore(show, b[1..], t));
    }
    if a == [] {
      assert x[0] == ']';
      Drop("]", s, t);
    } else {
      AfterItem(show, a[1..], s);
      AfterItem(show, b[1..], t);
      PutUnambiguous(show, a[0], b[0], PutMore(show, a[1..], s), PutMore(show, b[1..], t));
      MoreUnambiguous(show, a[1..], b[1..], s, t);
    }
  }

  lemma {:induction false} MoreUnambiguous(show: int -> string, a: seq<Js>, b: seq<Js>, s: string, t: string)
    requires Prints(show) && PutMore(show, a, s) == PutMore(show, b, t)
    ensures ShownAll(a) == ShownAll(b) && s == t
    decreases a
  {
    assert PutMore(show, a, s)[0] == if a == [] then ']' else ',';
    assert PutMore(show, b, t)[0] == if b == [] then ']' else ',';
    if a == [] {
      Drop("]", s, t);
    } else {
      Drop(",", Put(show, a[0], PutMore(show, a[1..], s)), Put(show, b[0], PutMore(show, b[1..], t)));
      AfterItem(show, a[1..], s);
      AfterItem(show, b[1..], t);
      PutUnambiguous(show, a[0], b[0], PutMore(show, a[1..], s), PutMore(show, b[1..], t));
      MoreUnambiguous(show, a[1..], b[1..], s, t);
    }
  }

  lemma {:induction false} MemberUnambiguous(show: int -> string, m: Member, n: Member, s: string, t: string)
    requires Prints(show) && Delimited(s) && Delimited(t) && PutMember(show, m, s) == PutMember(show, n, t)
    ensures ShownMember(m) == ShownMember(n) && s == t
    decreases m
  {
    StringUnambiguous(m.key, n.key, ":" + Put(show, m.value, s), ":" + Put(show, n.value, t));
    Drop(":", Put(show, m.value, s), Put(show, n.value, t));
    PutUnambiguous(show, m.value, n.value, s, t);
  }

  lemma {:induction false} ObjectUnambiguous(show: int -> string, a: seq<Member>, b: seq<Member>, s: string, t: string)
    requires Prints(show) && Put(show, Obj(a), s) == Put(show, Obj(b), t)
    ensures ShownMembers(a) == ShownMembers(b) && s == t
    decreases a
  {
    var x := if a == [] then "}" + s else PutMember(show, a[0], PutMoreMembers(show, a[1..], s));
    var y := if b == [] then "}" + t else PutMember(show, b[0], PutMoreMembers(show, b[1..], t));
    Drop("{", x, y);
    assert x[0] == if a == [] then '}' else '"';
    assert y[0] == if b == [] then '}' else '"';
    if a == [] {
      Drop("}", s, t);
    } else {
      AfterMember(show, a[1..], s);
      AfterMember(show, b[1..], t);
      MemberUnambiguous(show, a[0], b[0], PutMoreMembers(show, a[1..], s), PutMoreMembers(show, b[1..], t));
      MoreMembersUnambiguous(show, a[1..], b[1..], s, t);
    }
  }

  lemma {:induction false} MoreMembersUnambiguous(show: int -> string, a: seq<Member>, b: seq<Member>, s: string, t: string)
    requires Prints(show) && PutMoreMembers(show, a, s) == PutMoreMembers(show, b, t)
    ensures ShownMembers(a) == ShownMembers(b) && s == t
    decreases a
  {
    assert PutMoreMembers(show, a, s)[0] == if a == [] then '}' else ',';
    assert PutMoreMembers(show, b, t)[0] == if b == [] then '}' else ',';
    if a == [] {
      Drop("}", s, t);
    } else {
      Drop(",", PutMember(show, a[0], PutMoreMembers(show, a[1..], s)), PutMember(show, b[0], PutMoreMembers(show, b[1..], t)));
      AfterMember(show, a[1..], s);
      AfterMember(show, b[1..], t);
      MemberUnambiguous(show, a[0], b[0], PutMoreMembers(show, a[1..], s), PutMoreMembers(show, b[1..], t));
      MoreMembersUnambiguous(show, a[1..], b[1..], s, t);
    }
  }

  lemma {:induction false} PutShown(show: int -> string, v: Js, rest: string)
    ensures Put(show, v, rest) == Put(show, Shown(v), rest)
    decreases v
  {
    match v
    case Arr(items) =>
      if items != [] {
        PutMoreShown(show, items[1..], rest);
        PutShown(show, items[0], PutMore(show, items[1..], rest));
        assert ShownAll(items)[1..] == ShownAll(items[1..]);
      }
    case Obj(members) =>
      if members != [] {
        PutMoreMembersShown(show, members[1..], rest);
        PutMemberShown(show, members[0], PutMoreMembers(show, members[1..], rest));
        assert ShownMembers(members)[1..] == ShownMembers(members[1..]);
      }
    case _ =>
  }

  lemma {:induction false} PutMoreShown(show: int -> string, items: seq<Js>, rest: string)
    ensures PutMore(show, items, rest) == PutMore(show, ShownAll(items), rest)
    decreases items
  {
    if items != [] {
      PutMoreShown(show, items[1..], rest);
      PutShown(show, items[0], PutMore(show, items[1..], rest));
      assert ShownAll(items)[1..] == ShownAll(items[1..]);
    }
  }

  lemma {:induction false} PutMemberShown(show: int -> string, m: Member, rest: string)
    ensures PutMember(show, m, rest) == PutMember(show, ShownMember(m), rest)
    decreases m
  {
    PutShown(show, m.value, rest);
  }

  lemma {:induction false} PutMoreMembersShown(show: int -> string, members: seq<Member>, rest: string)
    ensures PutMoreMembers(show, members, rest) == PutMoreMembers(show, ShownMembers(members), rest)
    decreases members
  {
    if members != [] {
      PutMoreMembersShown(show, members[1..], rest);
      PutMemberShown(show, members[0], PutMoreMembers(show, members[1..], rest));
      assert ShownMembers(members)[1..] == ShownMembers(members[1..]);
    }
  }

  /** Two values have one text exactly when it shows one value. */
  lemma EncodeInjective(show: int -> string, v: Js, w: Js)
    requires Prints(show)
    ensures Encode(show, v) == Encode(show, w) <==> Shown(v) == Shown(w)
  {
    if Encode(show, v) == Encode(show, w) {
      PutUnambiguous(show, v, w, "", "");
    }
    PutShown(show, v, "");
    PutShown(show, w, "");
  }

  // ---- hosts print so -----------------------------------------------------------------

  /** Plain decimal digits. */
  function Digits(n: nat): (r: string)
    ensures r != ""
  {
    if n < 10 then ['0' + n as char] else Digits(n / 10) + ['0' + (n % 10) as char]
  }

  function Decimal(n: int): string {
    if n < 0 then "-" + Digits(-n) else Digits(n)
  }

  lemma {:induction false} DigitsAreDigits(n: nat)
    ensures forall i | 0 <= i < |Digits(n)| :: '0' <= Digits(n)[i] <= '9'
  {
    if n >= 10 {
      DigitsAreDigits(n / 10);
    }
  }

  lemma {:induction false} DigitsTell(m: nat, n: nat)
    requires Digits(m) == Digits(n)
    ensures m == n
  {
    var x, y := Digits(m), Digits(n);
    assert x[|x| - 1] == '0' + (m % 10) as char && y[|y| - 1] == '0' + (n % 10) as char;
    if m >= 10 && n >= 10 {
      assert x[..|x| - 1] == Digits(m / 10) && y[..|y| - 1] == Digits(n / 10);
      DigitsTell(m / 10, n / 10);
    }
  }

  lemma SignTells(n: int)
    ensures Decimal(n)[0] == '-' <==> n < 0
  {
    DigitsAreDigits(if n < 0 then -n else n);
  }

  /** There is such a printing: what is asked of a host can be met. */
  lemma DecimalPrints()
    ensures Prints(Decimal)
  {
    forall x: int
      ensures Decimal(x) != "" && forall i | 0 <= i < |Decimal(x)| :: NumberChar(Decimal(x)[i])
    {
      DigitsAreDigits(if x < 0 then -x else x);
    }
    forall x: int, y: int | Decimal(x) == Decimal(y) ensures x == y {
      SignTells(x);
      SignTells(y);
      if x < 0 && y < 0 {
        Drop("-", Digits(-x), Digits(-y));
        DigitsTell(-x, -y);
      } else if x >= 0 && y >= 0 {
        DigitsTell(x, y);
      }
    }
  }
}
