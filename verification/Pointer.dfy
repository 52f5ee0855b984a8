/** Writing a JSON value at a path: `json_set_value_by_path` over JSON Pointer (RFC 6901, sections 3
    to 5) with rapidjson's creation of missing containers. */
module Pointer {
  import opened Json
  import opened Merge
  import opened Numbers
  import opened Options

  /** rapidjson's size type has 32 bits, and its largest value marks a token that is no index. */
  const SIZE_LIMIT := 0x1_0000_0000
  const INVALID_INDEX := 0xFFFF_FFFF

  // ---- from a path string to reference tokens ----

  /** The path with a leading slash; the root path is the empty string. */
  function Normalized(path: string): string {
    var p := if path == "" || path[0] != '/' then "/" + path else path;
    if p == "/" then "" else p
  }

  function Split(s: string): (r: seq<string>)
    ensures |r| == Slashes(s) + 1
  {
    if s == "" then [""]
    else if s[0] == '/' then [""] + Split(s[1..])
    else var r := Split(s[1..]); [[s[0]] + r[0]] + r[1..]
  }

  function Slashes(s: string): nat {
    if s == "" then 0 else (if s[0] == '/' then 1 else 0) + Slashes(s[1..])
  }

  /** `~1` stands for a slash and `~0` for a tilde; any other use of a tilde is an error. */
  function Unescape(s: string): Option<string> {
    if s == "" then Some("")
    else if s[0] == '~' && (|s| == 1 || (s[1] != '0' && s[1] != '1')) then None
    else
      var rest := Unescape(if s[0] == '~' then s[2..] else s[1..]);
      if rest.None? then None
      else Some([if s[0] != '~' then s[0] else if s[1] == '0' then '~' else '/'] + rest.value)
  }

  function UnescapeAll(ts: seq<string>): (r: Option<seq<string>>)
    ensures r.Some? ==> |r.value| == |ts|
  {
    if ts == [] then Some([])
    else
      var t, rest := Unescape(ts[0]), UnescapeAll(ts[1..]);
      if t.None? || rest.None? then None else Some([t.value] + rest.value)
  }

  function Tokens(path: string): Option<seq<string>> {
    var p := Normalized(path);
    if p == "" then Some([]) else UnescapeAll(Split(p[1..]))
  }

  /** A name that stands for itself in a path. */
  predicate Verbatim(name: string) {
    forall i :: 0 <= i < |name| ==> name[i] != '/' && name[i] != '~'
  }

  lemma {:induction false} VerbatimTokens(name: string, rest: string)
    requires Verbatim(name)
    ensures Split(name) == [name] && Unescape(name) == Some(name)
    ensures Split(name + "/" + rest) == [name] + Split(rest)
  {
    if name == "" {
      assert name + "/" + rest == "/" + rest;
    } else {
      VerbatimTokens(name[1..], rest);
      assert [name[0]] + name[1..] == name && Split(name[1..])[1..] == [];
      assert (name + "/" + rest)[1..] == name[1..] + "/" + rest;
    }
  }

  lemma {:induction false} AllUnescaped(ts: seq<string>)
    requires forall i :: 0 <= i < |ts| ==> Verbatim(ts[i])
    ensures UnescapeAll(ts) == Some(ts)
  {
    if ts != [] {
      VerbatimTokens(ts[0], "");
      AllUnescaped(ts[1..]);
      assert [ts[0]] + ts[1..] == ts;
    }
  }

  // ---- from reference tokens to a path string ----

  function Escape(token: string): string {
    if token == "" then ""
    else
      (if token[0] == '~' then "~0" else if token[0] == '/' then "~1" else [token[0]]) + Escape(token[1..])
  }

  /** A path that consists of these tokens. */
  function PathText(tokens: seq<string>): string {
    if tokens == [] then "" else "/" + Escape(tokens[0]) + PathText(tokens[1..])
  }

  lemma {:induction false} UnescapeEscape(token: string)
    ensures Unescape(Escape(token)) == Some(token)
  {
    if token != "" {
      var e, rest := Escape(token), Escape(token[1..]);
      UnescapeEscape(token[1..]);
      assert token == [token[0]] + token[1..];
      if token[0] == '~' || token[0] == '/' { assert e[2..] == rest; } else { assert e[1..] == rest; }
    }
  }

  predicate NoSlash(s: string) {
    forall i :: 0 <= i < |s| ==> s[i] != '/'
  }

  lemma {:induction false} EscapeHasNoSlash(token: string)
    ensures NoSlash(Escape(token))
  {
    if token != "" { EscapeHasNoSlash(token[1..]); }
  }

  lemma {:induction false} SplitFirst(name: string, rest: string)
    requires NoSlash(name)
    ensures Split(name) == [name]
    ensures Split(name + "/" + rest) == [name] + Split(rest)
  {
    if name == "" {
      assert name + "/" + rest == "/" + rest;
    } else {
      SplitFirst(name[1..], rest);
      assert [name[0]] + name[1..] == name;
      assert (name + "/" + rest)[1..] == name[1..] + "/" + rest;
    }
  }

  lemma {:induction false} SplitText(token: string, more: seq<string>)
    ensures UnescapeAll(Split(Escape(token) + PathText(more))) == Some([token] + more)
    decreases |more|
  {
    EscapeHasNoSlash(token);
    UnescapeEscape(token);
    if more == [] {
      SplitFirst(Escape(token), "");
      assert Escape(token) + PathText(more) == Escape(token);
    } else {
      var rest := Escape(more[0]) + PathText(more[1..]);
      SplitText(more[0], more[1..]);
      assert [more[0]] + more[1..] == more;
      SplitFirst(Escape(token), rest);
      SlashBetween(Escape(token), more);
      UnescapeFirst(Escape(token), Split(rest));
    }
  }

  lemma SlashBetween(e: string, more: seq<string>)
    requires more != []
    ensures e + PathText(more) == e + "/" + (Escape(more[0]) + PathText(more[1..]))
  {
    assert PathText(more) == "/" + (Escape(more[0]) + PathText(more[1..]));
  }

  lemma UnescapeFirst(t: string, ts: seq<string>)
    requires Unescape(t).Some? && UnescapeAll(ts).Some?
    ensures UnescapeAll([t] + ts) == Some([Unescape(t).value] + UnescapeAll(ts).value)
  {
    assert ([t] + ts)[1..] == ts;
  }

  /** Any names can be written down as a path, with a tilde as `~0` and a slash as `~1`; only the single empty
      token cannot, since its path stands for the root. */
  lemma TokensOfText(tokens: seq<string>)
    ensures Tokens(PathText(tokens)) == Some(if tokens == [""] then [] else tokens)
  {
    if tokens != [] {
      var body := Escape(tokens[0]) + PathText(tokens[1..]);
      SplitText(tokens[0], tokens[1..]);
      assert PathText(tokens) == "/" + body;
      assert ("/" + body)[1..] == body;
      assert [tokens[0]] + tokens[1..] == tokens;
      if body == "" {
        assert PathText(tokens[1..]) == "";
        assert tokens[0] == "" && tokens[1..] == [];
      }
    }
  }

  // ---- writing at a list of tokens ----

  /** The number that a string of digits adds up to; a fall below the sum so far counts as an overflow. */
  function Accumulated(digits: string): Option<nat> {
    if digits == "" then Some(0)
    else
      var n := Accumulated(digits[..|digits| - 1]);
      if n.None? then None
      else
        var m := (n.value * 10 + DigitValue(digits[|digits| - 1])) % SIZE_LIMIT;
        if m < n.value then None else Some(m)
  }

  /** The array index a token denotes: digits without a leading zero. */
  function Index(token: string): Option<nat> {
    if token != "" && (forall i :: 0 <= i < |token| ==> IsDigit(token[i])) && (|token| == 1 || token[0] != '0')
       && Accumulated(token) != Some(INVALID_INDEX)
    then Accumulated(token) else None
  }

  function Padded(items: seq<Value>, n: nat): (r: seq<Value>)
    ensures |r| == if |items| < n then n else |items|
    ensures items <= r && forall i :: |items| <= i < |r| ==> r[i] == Null
  {
    if |items| < n then items + seq(n - |items|, _ => Null) else items
  }

  /** The container that a token needs: an object for a name, an array or object for an index. */
  function Container(v: Value, token: string): (r: Value)
    ensures r.Object? || (r.Array? && Index(token).Some?)
  {
    if Index(token).None? then (if v.Object? then v else Object([]))
    else if v.Array? || v.Object? then v else Array([])
  }

  function SetAt(v: Value, path: seq<string>, x: Value): Value
    decreases |path|
  {
    if path == [] then x
    else if v.Array? && path[0] == "-" then Array(v.items + [SetAt(Null, path[1..], x)])
    else
      var c := Container(v, path[0]);
      if c.Array? then
        var items := Padded(c.items, Index(path[0]).value + 1);
        var i := Index(path[0]).value;
        Array(items[i := SetAt(items[i], path[1..], x)])
      else if HasMember(c.members, path[0]) then
        Object(AssignMember(c.members, path[0], SetAt(Get(c.members, path[0]), path[1..], x)))
      else
        Object(AddMember(c.members, path[0], SetAt(Null, path[1..], x)))
  }

  /** An invalid path has no tokens left, and so stands for the root. */
  function PathOf(path: string): seq<string> {
    if Tokens(path).Some? then Tokens(path).value else []
  }

  function Written(doc: Value, path: string, x: Value): Value {
    SetAt(doc, PathOf(path), x)
  }

  /** Assertions of the library are off, as in a release build: the write is made before the path is
      checked. */
  method JsonSetValueByPath(path: string, doc: Slot, value: Value) returns (ret: int)
    modifies doc
    ensures doc.value == Written(old(doc.value), path, value)
    ensures ret == if Tokens(path).Some? then 0 else -1
  {
    var normPath := path;
    if normPath == "" || normPath[0] != '/' {
      normPath := "/" + normPath;
    }
    if normPath == "/" {
      normPath := "";
    }
    var pointer := if normPath == "" then Some([]) else UnescapeAll(Split(normPath[1..]));
    doc.value := SetAt(doc.value, if pointer.Some? then pointer.value else [], value);
    if pointer.Some? {
      ret := 0;
    } else {
      ret := -1;
    }
  }

  // ---- reading ----

  /** The value a list of tokens refers to: a member by name, an element by index. */
  function GetAt(v: Value, path: seq<string>): Option<Value> {
    if path == [] then Some(v)
    else
      match v
      case Object(ms) => if HasMember(ms, path[0]) then GetAt(Get(ms, path[0]), path[1..]) else None
      case Array(items) =>
        var i := Index(path[0]);
        if i.Some? && i.value < |items| then GetAt(items[i.value], path[1..]) else None
      case _ => None
  }

  function GetByPath(v: Value, path: string): Option<Value> {
    GetAt(v, PathOf(path))
  }

  lemma IndexOfDigits(n: nat)
    requires n < INVALID_INDEX
    ensures Index(Digits(n)) == Some(n)
  {
    LeadingDigit(n);
    AccumulatedIs(Digits(n));
  }

  /** A string of digits without a leading zero is the numeral of its value. */
  lemma {:induction false} NumeralIsDigits(s: string)
    requires s != "" && (forall i :: 0 <= i < |s| ==> IsDigit(s[i])) && (|s| == 1 || s[0] != '0')
    ensures Digits(Decimal(s)) == s
    ensures s[0] != '0' ==> Decimal(s) > 0
  {
    var front, c := s[..|s| - 1], s[|s| - 1];
    assert s == front + [c];
    if front == "" {
      assert Decimal(s) == DigitValue(c) < 10;
    } else {
      NumeralIsDigits(front);
      assert Decimal(s) == 10 * Decimal(front) + DigitValue(c) && DigitValue(c) < 10;
    }
  }

  /** Below the largest size, the indices are exactly the numerals: no sign, no leading zero, no other form. */
  lemma IndexExactly(token: string, n: nat)
    requires Decimal(token) < INVALID_INDEX
    ensures Index(token) == Some(n) <==> token == Digits(n)
  {
    AccumulatedIs(token);
    if Index(token).Some? { NumeralIsDigits(token); }
    if token == Digits(n) { IndexOfDigits(n); }
  }

  lemma {:induction false} AccumulatedIs(digits: string)
    requires Decimal(digits) < SIZE_LIMIT
    ensures Accumulated(digits) == Some(Decimal(digits))
  {
    if digits != "" { AccumulatedIs(digits[..|digits| - 1]); }
  }

  lemma {:induction false} LeadingDigit(n: nat)
    ensures n > 0 ==> Digits(n)[0] != '0'
    ensures n < 10 ==> |Digits(n)| == 1
  {
    if n >= 10 { LeadingDigit(n / 10); }
  }

  lemma GetElement(items: seq<Value>, token: string, rest: seq<string>, x: Value)
    requires Index(token).Some?
    ensures var all, i := Padded(items, Index(token).value + 1), Index(token).value;
      GetAt(Array(all[i := x]), [token] + rest) == GetAt(x, rest)
  {
    assert ([token] + rest)[1..] == rest;
  }

  lemma GetMember(ms: seq<Member>, token: string, rest: seq<string>, x: Value)
    ensures HasMember(ms, token) ==> GetAt(Object(AssignMember(ms, token, x)), [token] + rest) == GetAt(x, rest)
    ensures !HasMember(ms, token) ==> GetAt(Object(AddMember(ms, token, x)), [token] + rest) == GetAt(x, rest)
  {
    assert ([token] + rest)[1..] == rest;
    if HasMember(ms, token) {
      PositionIs(AssignMember(ms, token, x), token, Position(ms, token));
    } else {
      PositionIs(AddMember(ms, token, x), token, |ms|);
    }
  }

  /** A value that has been written is read back, whatever the document was; only `-`, which means a
      new array element, cannot be read. */
  lemma {:induction false} GetAfterSet(v: Value, path: seq<string>, x: Value)
    requires forall i :: 0 <= i < |path| ==> path[i] != "-"
    ensures GetAt(SetAt(v, path, x), path) == Some(x)
    decreases |path|
  {
    if path != [] {
      var c, token, rest := Container(v, path[0]), path[0], path[1..];
      assert path == [token] + rest;
      if c.Array? {
        var items, i := Padded(c.items, Index(token).value + 1), Index(token).value;
        GetAfterSet(items[i], rest, x);
        GetElement(c.items, token, rest, SetAt(items[i], rest, x));
      } else {
        var inner := if HasMember(c.members, token) then Get(c.members, token) else Null;
        GetAfterSet(inner, rest, x);
        GetMember(c.members, token, rest, SetAt(inner, rest, x));
      }
    }
  }

  // ---- what a write by names does to the tree ----

  /** A token that always names an object member. */
  predicate Plain(path: seq<string>) {
    forall i :: 0 <= i < |path| ==> Index(path[i]).None? && path[i] != "-"
  }

  ghost function Child(t: Tree, name: string): Tree {
    if t.Node? && name in t.m then t.m[name] else Leaf(Null)
  }

  ghost function SetTree(t: Tree, path: seq<string>, x: Tree): Tree
    decreases |path|
  {
    if path == [] then x
    else Put(t, path[0], SetTree(Child(t, path[0]), path[1..], x))
  }

  ghost function Put(t: Tree, name: string, sub: Tree): Tree {
    Node((if t.Node? then t.m else map[])[name := sub])
  }

  lemma PrefixTail(p: seq<string>, q: seq<string>)
    requires p != [] && q != [] && p[0] == q[0]
    ensures p <= q <==> p[1..] <= q[1..]
  {
    assert p == [p[0]] + p[1..] && q == [q[0]] + q[1..];
  }

  lemma {:induction false} SetView(v: Value, path: seq<string>, x: Value)
    requires Plain(path)
    ensures View(SetAt(v, path, x)) == SetTree(View(v), path, View(x))
    decreases |path|
  {
    if path != [] {
      var ms, token, rest := Container(v, path[0]).members, path[0], path[1..];
      var inner := if HasMember(ms, token) then Get(ms, token) else Null;
      SetView(inner, rest, x);
      PutView(ms, token, SetAt(inner, rest, x));
      ViewLookup(ms, token);
    }
  }

  lemma PutView(ms: seq<Member>, token: string, x: Value)
    ensures View(Object(if HasMember(ms, token) then AssignMember(ms, token, x) else AddMember(ms, token, x)))
      == Node(ViewMembers(ms)[token := View(x)])
  {
    if HasMember(ms, token) { ViewAssign(ms, token, x); } else { ViewAdd(ms, token, x); }
  }

  lemma {:induction false} SetReadsBack(t: Tree, q: seq<string>, x: Tree, p: seq<string>)
    requires p <= q
    ensures At(SetTree(t, q, x), p) ==
      Some(SetTree(if At(t, p).Some? then At(t, p).value else Leaf(Null), q[|p|..], x))
    decreases |p|
  {
    if p != [] {
      SetReadsBack(Child(t, p[0]), q[1..], x, p[1..]);
      assert q[1..][|p[1..]|..] == q[|p|..];
    }
  }

  ghost predicate Apart(p: seq<string>, q: seq<string>) {
    !(p <= q) && !(q <= p)
  }

  /** A write elsewhere, neither above nor below `p`, leaves `p` alone. */
  lemma {:induction false} SetElsewhere(t: Tree, q: seq<string>, x: Tree, p: seq<string>)
    requires Apart(p, q)
    ensures At(SetTree(t, q, x), p) == At(t, p)
    decreases |p|
  {
    if p[0] == q[0] {
      PrefixTail(p, q);
      PrefixTail(q, p);
      SetElsewhere(Child(t, q[0]), q[1..], x, p[1..]);
    }
  }

  lemma {:induction false} SetCommutes(t: Tree, p: seq<string>, x: Tree, q: seq<string>, y: Tree)
    requires Apart(p, q)
    ensures SetTree(SetTree(t, p, x), q, y) == SetTree(SetTree(t, q, y), p, x)
    decreases |p|
  {
    var tp, tq := SetTree(Child(t, p[0]), p[1..], x), SetTree(Child(t, q[0]), q[1..], y);
    SetAfterPut(t, p[0], tp, q, y);
    SetAfterPut(t, q[0], tq, p, x);
    if p[0] == q[0] {
      PrefixTail(p, q);
      PrefixTail(q, p);
      SetCommutes(Child(t, q[0]), p[1..], x, q[1..], y);
    } else {
      PutCommutes(t, p[0], tp, q[0], tq);
    }
  }

  lemma PutCommutes(t: Tree, a: string, x: Tree, b: string, y: Tree)
    requires a != b
    ensures Put(Put(t, a, x), b, y) == Put(Put(t, b, y), a, x)
  {
  }

  lemma SetAfterPut(t: Tree, name: string, sub: Tree, q: seq<string>, y: Tree)
    requires q != []
    ensures SetTree(Put(t, name, sub), q, y) ==
      if q[0] == name then Put(t, name, SetTree(sub, q[1..], y))
      else Put(Put(t, name, sub), q[0], SetTree(Child(t, q[0]), q[1..], y))
  {
  }
}
