/** JSON values and the selectors that name a member of an object. */
module Json {
  import opened Wrappers
  import opened Decimal
  import opened Hlc

  datatype Field = Field(key: string, value: Json)

  datatype Json =
    | Null
    | Bool(b: bool)
    | Number(text: string)
    | Str(s: string)
    | Array(items: seq<Json>)
    | Object(fields: seq<Field>)

  function Get(fields: seq<Field>, key: string): Option<Json> {
    if fields == [] then None
    else if fields[0].key == key then Some(fields[0].value)
    else Get(fields[1..], key)
  }

  /** Left-to-right replacement of a two-character escape. */
  function Replace(s: string, escape: string, plain: string): string
    requires |escape| == 2
  {
    if |s| < 2 then s
    else if s[..2] == escape then plain + Replace(s[2..], escape, plain)
    else [s[0]] + Replace(s[1..], escape, plain)
  }

  /** Section 4 of RFC 6901: first `~1`, then `~0`. */
  function Unescape(token: string): string {
    Replace(Replace(token, "~1", "/"), "~0", "~")
  }

  /** Array steps take a canonical decimal inside the array; `-` and leading zeros find nothing. */
  function Child(node: Json, token: string): Option<Json> {
    match node
    case Object(fields) => Get(fields, token)
    case Array(items) =>
      if IsCanonical(token) && Value(token, 10) < |items| then Some(items[Value(token, 10)]) else None
    case _ => None
  }

  /** Follows the reference tokens of `path`, which starts just after a `/`. */
  function Walk(node: Json, path: string): Option<Json>
    decreases |path|
  {
    var i := IndexOf(path, '/');
    match Child(node, Unescape(path[..i]))
    case None => None
    case Some(next) => if i == |path| then Some(next) else Walk(next, path[i + 1..])
  }

  /** Evaluation of a JSON Pointer relative to `node`. */
  function Pointer(node: Json, pointer: string): Option<Json> {
    if pointer == "" then Some(node)
    else if pointer[0] != '/' then None
    else Walk(node, pointer[1..])
  }

  // ----- pointers name paths of arbitrary member names -----

  function Escape(token: string): string {
    if token == "" then ""
    else (if token[0] == '~' then "~0" else if token[0] == '/' then "~1" else [token[0]]) + Escape(token[1..])
  }

  /** Only the tildes escaped: the state between the two replacements. */
  function EscapeTilde(token: string): string {
    if token == "" then "" else (if token[0] == '~' then "~0" else [token[0]]) + EscapeTilde(token[1..])
  }

  function Encode(tokens: seq<string>): string {
    if tokens == [] then "" else ['/'] + (Escape(tokens[0]) + Encode(tokens[1..]))
  }

  function Follow(node: Json, tokens: seq<string>): Option<Json>
    decreases |tokens|
  {
    if tokens == [] then Some(node)
    else
      match Child(node, tokens[0])
      case None => None
      case Some(next) => Follow(next, tokens[1..])
  }

  lemma ReplacePlain(c: char, s: string, escape: string, plain: string)
    requires |escape| == 2 && c != escape[0]
    ensures Replace([c] + s, escape, plain) == [c] + Replace(s, escape, plain)
  {
    assert ([c] + s)[1..] == s;
  }

  lemma ReplaceEscape(s: string, escape: string, plain: string)
    requires |escape| == 2
    ensures Replace(escape + s, escape, plain) == plain + Replace(s, escape, plain)
  {
    assert (escape + s)[..2] == escape && (escape + s)[2..] == s;
  }

  lemma {:induction false} FirstReplacement(token: string)
    ensures Replace(Escape(token), "~1", "/") == EscapeTilde(token)
  {
    if token != "" {
      var rest := Escape(token[1..]);
      FirstReplacement(token[1..]);
      if token[0] == '~' {
        assert Escape(token) == ['~'] + (['0'] + rest);
        assert (['~'] + (['0'] + rest))[..2] == "~0";
        assert (['~'] + (['0'] + rest))[1..] == ['0'] + rest;
        ReplacePlain('0', rest, "~1", "/");
      } else if token[0] == '/' {
        ReplaceEscape(rest, "~1", "/");
      } else {
        ReplacePlain(token[0], rest, "~1", "/");
      }
    }
  }

  lemma {:induction false} SecondReplacement(token: string)
    ensures Replace(EscapeTilde(token), "~0", "~") == token
  {
    if token != "" {
      SecondReplacement(token[1..]);
      if token[0] == '~' {
        ReplaceEscape(EscapeTilde(token[1..]), "~0", "~");
      } else {
        ReplacePlain(token[0], EscapeTilde(token[1..]), "~0", "~");
      }
    }
  }

  /** The order of the two replacements matters: every member name survives, `~1` and `~01` included. */
  lemma UnescapeOfEscape(token: string)
    ensures Unescape(Escape(token)) == token
  {
    FirstReplacement(token);
    SecondReplacement(token);
  }

  lemma {:induction false} EscapeHasNoSlash(token: string)
    ensures '/' !in Escape(token)
  {
    if token != "" {
      EscapeHasNoSlash(token[1..]);
    }
  }

  lemma FirstPiece(head: string, rest: string)
    requires '/' !in head && (rest != "" ==> rest[0] == '/')
    ensures IndexOf(head + rest, '/') == |head| && (head + rest)[..|head|] == head
    ensures rest != "" ==> (head + rest)[|head| + 1..] == rest[1..]
  {
    if rest == "" {
      assert head + rest == head;
      NotFound(head, '/');
    } else {
      assert head + rest == head + ['/'] + rest[1..];
      IndexOfHead(head, '/', rest[1..]);
    }
  }

  /** The part of an encoded path after its leading slash. */
  function Tail(tokens: seq<string>): string
    requires tokens != []
  {
    Escape(tokens[0]) + Encode(tokens[1..])
  }

  lemma {:induction false} WalkFollows(node: Json, tokens: seq<string>)
    requires tokens != []
    ensures Walk(node, Tail(tokens)) == Follow(node, tokens)
    decreases |tokens|
  {
    var path, rest := Tail(tokens), Encode(tokens[1..]);
    EscapeHasNoSlash(tokens[0]);
    FirstPiece(Escape(tokens[0]), rest);
    UnescapeOfEscape(tokens[0]);
    if Child(node, tokens[0]).Some? && tokens[1..] != [] {
      assert rest[1..] == Tail(tokens[1..]);
      WalkFollows(Child(node, tokens[0]).value, tokens[1..]);
    }
  }

  /** Whatever the member names, the pointer written for a path leads along exactly that path. */
  lemma PointerFollowsTokens(node: Json, tokens: seq<string>)
    ensures Pointer(node, Encode(tokens)) == Follow(node, tokens)
  {
    if tokens != [] {
      assert Encode(tokens)[1..] == Tail(tokens);
      WalkFollows(node, tokens);
    }
  }

  lemma NotFound(s: string, c: char)
    requires c !in s
    ensures IndexOf(s, c) == |s|
  {}

  /** A plain selector is a direct key; `#...` is a pointer relative to the node. */
  function Select(node: Json, selector: string): Option<Json>
    requires node.Object?
  {
    if selector != "" && selector[0] == '#' then Pointer(node, selector[1..]) else Get(node.fields, selector)
  }

  /** The text a selector yields at a node, if it yields text. */
  function SelectText(node: Json, selector: string): Option<string>
    requires node.Object?
  {
    match Select(node, selector)
    case Some(Str(s)) => Some(s)
    case _ => None
  }

  // ----- what selectors name -----

  lemma {:induction false} GetExactly(fields: seq<Field>, key: string)
    ensures forall i :: 0 <= i < |fields| && fields[i].key == key && (forall j :: 0 <= j < i ==> fields[j].key != key) ==>
              Get(fields, key) == Some(fields[i].value)
    ensures (forall i :: 0 <= i < |fields| ==> fields[i].key != key) ==> Get(fields, key) == None
  {
    if fields != [] {
      GetExactly(fields[1..], key);
      assert forall i :: 0 < i < |fields| ==> fields[i] == fields[1..][i - 1];
    }
  }

  /** Members by their first name, items by the canonical decimal of their index, and nothing else. */
  lemma ChildExactly(node: Json, token: string)
    ensures node.Object? ==> Child(node, token) == Get(node.fields, token)
    ensures node.Array? ==> forall i: nat :: i < |node.items| && token == ToDecimal(i) ==> Child(node, token) == Some(node.items[i])
    ensures node.Array? && (forall i: nat :: i < |node.items| ==> token != ToDecimal(i)) ==> Child(node, token) == None
    ensures !node.Object? && !node.Array? ==> Child(node, token) == None
  {
    if node.Array? {
      forall i: nat | i < |node.items| && token == ToDecimal(i)
        ensures Child(node, token) == Some(node.items[i])
      {
        ToDecimalCanonical(i);
      }
      if IsCanonical(token) {
        ToDecimalOfValue(token);
      }
    }
  }

  /** What a selector names, relative to an object: one member, or the path of a JSON Pointer after `#`. */
  predicate Names(selector: string, tokens: seq<string>) {
    selector == "#" + Encode(tokens) || (tokens == [selector] && (selector == "" || selector[0] != '#'))
  }

  lemma SelectFollows(node: Json, selector: string, tokens: seq<string>)
    requires node.Object? && Names(selector, tokens)
    ensures Select(node, selector) == Follow(node, tokens)
  {
    if selector == "#" + Encode(tokens) {
      assert selector[1..] == Encode(tokens);
      PointerFollowsTokens(node, tokens);
    } else {
      assert tokens[1..] == [];
    }
  }

  /** A selector with a `#` that does not introduce a pointer names nothing. */
  lemma MalformedSelectsNothing(node: Json, pointer: string)
    requires node.Object? && pointer != "" && pointer[0] != '/'
    ensures Select(node, "#" + pointer) == None
  {
    assert ("#" + pointer)[1..] == pointer;
  }
}
