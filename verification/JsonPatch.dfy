/** JSON documents, JSON Pointer (RFC 6901) and the "add" operation of JSON Patch (section 4.1 of RFC 6902). */
module JsonPatch {
  import opened Text
  import opened Storage

  datatype Json =
    | Null
    | Bool(value: bool)
    | Number(text: string)
    | Str(text: string)
    | Arr(items: seq<Json>)
    | Obj(members: map<string, Json>)

  // ---------------------------------------------------------------- pointers

  /** Section 3 of RFC 6901: "~" is written "~0" and "/" is written "~1". */
  function Escape(token: string): string {
    if token == [] then []
    else (if token[0] == '~' then "~0" else if token[0] == '/' then "~1" else [token[0]]) + Escape(token[1..])
  }

  /** Section 4 of RFC 6901; an escape other than "~0" and "~1" is an error. */
  function Unescape(s: string): Option<string> {
    if s == [] then Some([])
    else if s[0] == '~' then
      if |s| >= 2 && (s[1] == '0' || s[1] == '1') then
        match Unescape(s[2..])
        case None => None
        case Some(rest) => Some([if s[1] == '0' then '~' else '/'] + rest)
      else None
    else
      match Unescape(s[1..])
      case None => None
      case Some(rest) => Some([s[0]] + rest)
  }

  /** Where the next slash is, or the end. */
  function SlashAt(s: string): (i: nat)
    ensures i <= |s| && '/' !in s[..i] && (i < |s| ==> s[i] == '/')
  {
    if s == [] || s[0] == '/' then 0 else
    var i := 1 + SlashAt(s[1..]);
    assert s[..i] == [s[0]] + s[1..][..i - 1];
    i
  }

  /** The reference tokens of a pointer; None when it is not one. */
  function Tokens(pointer: string): Option<seq<string>>
    decreases |pointer|
  {
    if pointer == [] then Some([])
    else if pointer[0] != '/' then None
    else
      var i := 1 + SlashAt(pointer[1..]);
      match Unescape(pointer[1..i])
      case None => None
      case Some(token) =>
        match Tokens(pointer[i..])
        case None => None
        case Some(tokens) => Some([token] + tokens)
  }

  function Pointer(tokens: seq<string>): string {
    if tokens == [] then [] else "/" + Escape(tokens[0]) + Pointer(tokens[1..])
  }

  lemma {:induction false} EscapeRoundTrip(token: string)
    ensures Unescape(Escape(token)) == Some(token) && '/' !in Escape(token)
  {
    if token != [] {
      EscapeRoundTrip(token[1..]);
      var e := Escape(token);
      assert token == [token[0]] + token[1..];
      if token[0] == '~' || token[0] == '/' {
        assert e[2..] == Escape(token[1..]);
      } else {
        assert e[1..] == Escape(token[1..]);
      }
    }
  }

  lemma SlashAtIs(head: string, rest: string)
    requires '/' !in head && (rest == [] || rest[0] == '/')
    ensures SlashAt(head + rest) == |head|
  {
    var s := head + rest;
    var i := SlashAt(s);
    assert forall k :: 0 <= k < |head| ==> s[k] == head[k] && s[k] != '/';
    assert forall k :: 0 <= k < i ==> s[..i][k] == s[k] && s[k] != '/';
    assert rest != [] ==> s[|head|] == '/';
  }

  lemma TokensStep(token: string, rest: string)
    requires rest == [] || rest[0] == '/'
    ensures Tokens("/" + Escape(token) + rest) ==
                match Tokens(rest) case None => None case Some(ts) => Some([token] + ts)
  {
    var e := Escape(token);
    var p := "/" + e + rest;
    EscapeRoundTrip(token);
    SlashAtIs(e, rest);
    assert p[1..] == e + rest;
    assert p[1..1 + |e|] == e && p[1 + |e|..] == rest;
  }

  /** A pointer denotes the tokens it was made from. */
  lemma {:induction false} PointerRoundTrip(tokens: seq<string>)
    ensures Tokens(Pointer(tokens)) == Some(tokens)
  {
    if tokens != [] {
      PointerRoundTrip(tokens[1..]);
      TokensStep(tokens[0], Pointer(tokens[1..]));
      assert [tokens[0]] + tokens[1..] == tokens;
    }
  }

  predicate NeedsNoEscape(token: string) {
    '/' !in token && '~' !in token
  }

  lemma EscapePlain(token: string)
    requires NeedsNoEscape(token)
    ensures Escape(token) == token
  {}

  lemma {:induction false} EscapeConcat(a: string, b: string)
    ensures Escape(a + b) == Escape(a) + Escape(b)
  {
    if a == [] {
      assert a + b == b;
    } else {
      assert (a + b)[1..] == a[1..] + b;
      EscapeConcat(a[1..], b);
    }
  }

  /** One more token in front of a pointer, in a form that needs no escaping. */
  lemma PlainStep(token: string, rest: string, tokens: seq<string>)
    requires NeedsNoEscape(token) && (rest == [] || rest[0] == '/')
    requires tokens != [] && tokens[0] == token && Tokens(rest) == Some(tokens[1..])
    ensures Tokens("/" + token + rest) == Some(tokens)
  {
    EscapePlain(token);
    TokensStep(token, rest);
    assert [token] + tokens[1..] == tokens;
  }

  // ---------------------------------------------------------------- the add operation

  /** Section 4 of RFC 6901: digits without a leading zero. */
  function ArrayIndex(token: string): Option<nat> {
    if token != [] && AllDigits(token) && (token[0] != '0' || |token| == 1) then Some(Value(token)) else None
  }

  /** Section 4.1 of RFC 6902: add or replace a member, insert before an index, or append at "-". */
  function Add(doc: Json, path: seq<string>, value: Json): Option<Json> {
    if path == [] then Some(value)
    else if |path| == 1 then
      match doc
      case Obj(members) => Some(Obj(members[path[0] := value]))
      case Arr(items) =>
        if path[0] == "-" then Some(Arr(items + [value]))
        else (match ArrayIndex(path[0])
              case Some(i) => if i <= |items| then Some(Arr(items[..i] + [value] + items[i..])) else None
              case None => None)
      case _ => None
    else
      match doc
      case Obj(members) =>
        if path[0] !in members then None
        else (match Add(members[path[0]], path[1..], value)
              case Some(child) => Some(Obj(members[path[0] := child]))
              case None => None)
      case Arr(items) =>
        (match ArrayIndex(path[0])
         case Some(i) =>
           if i >= |items| then None
           else (match Add(items[i], path[1..], value)
                 case Some(child) => Some(Arr(items[i := child]))
                 case None => None)
         case None => None)
      case _ => None
  }

  /** In an array: at an index the items behind it move up; past the end, or at no index, nothing can be added. */
  lemma AddInserts(items: seq<Json>, i: nat, value: Json)
    ensures Add(Arr(items), [Digits(i)], value)
            == if i > |items| then None else Some(Arr(items[..i] + [value] + items[i..]))
    ensures Add(Arr(items), ["-"], value) == Some(Arr(items + [value]))
    ensures Add(Arr(items), ["0" + Digits(i)], value) == None
  {
    assert Digits(i)[0] != '-' && Digits(i) != "-";
    assert ("0" + Digits(i))[0] == '0' && |"0" + Digits(i)| > 1 && "0" + Digits(i) != "-";
  }

  datatype Patch = Patch(op: string, path: string, value: Json)

  /** One operation; "add" is the only one the webhook emits. */
  function ApplyOne(doc: Json, patch: Patch): (r: Option<Json>)
    ensures r.Some? ==> patch.op == "add" && Tokens(patch.path).Some?
  {
    if patch.op != "add" then None
    else match Tokens(patch.path)
      case None => None
      case Some(path) => Add(doc, path, patch.value)
  }

  /** The operations in order; the first failure fails the whole patch. */
  function Apply(doc: Json, patches: seq<Patch>): Option<Json>
    decreases |patches|
  {
    if patches == [] then Some(doc)
    else match ApplyOne(doc, patches[0])
      case None => None
      case Some(next) => Apply(next, patches[1..])
  }

  lemma {:induction false} ApplyConcat(doc: Json, a: seq<Patch>, b: seq<Patch>)
    ensures Apply(doc, a + b) == match Apply(doc, a) case None => None case Some(mid) => Apply(mid, b)
    decreases |a|
  {
    if a == [] {
      assert a + b == b;
    } else {
      assert (a + b)[1..] == a[1..] + b;
      match ApplyOne(doc, a[0])
      case None =>
      case Some(next) => ApplyConcat(next, a[1..], b);
    }
  }
}
