/** JSON trees and the resolution of JSON Pointers in them (RFC 6901). */
module JsonPointer {
  import opened Wrappers
  import opened Decimals

  datatype Node =
    | Nil
    | Flag(b: bool)
    | Number(r: real)
    | Text(s: string)
    | List(items: seq<Node>)
    | Record(fields: map<string, Node>)

  // ----- the resolver ------------------------------------------------------

  /** Replace every occurrence of a tilde followed by `digit`, from left to right. */
  function Replace(s: string, digit: char, result: char): string {
    if s == [] then []
    else if |s| > 1 && s[0] == '~' && s[1] == digit then [result] + Replace(s[2..], digit, result)
    else [s[0]] + Replace(s[1..], digit, result)
  }

  function Unescape(token: string): string { Replace(Replace(token, '1', '/'), '0', '~') }

  function Split(s: string): (tokens: seq<string>)
    ensures |tokens| >= 1
  {
    if s == [] then [""]
    else
      var more := Split(s[1..]);
      if s[0] == '/' then [""] + more else [[s[0]] + more[0]] + more[1..]
  }

  /** One step down; `None` is undefined. */
  function Step(value: Option<Node>, token: string): Option<Node> {
    var key := Unescape(token);
    match value
    case Some(List(items)) =>
      if key != [] && AllDigits(key) && DecimalValue(key) < |items| then Some(items[DecimalValue(key)]) else None
    case Some(Record(fields)) => if key in fields then Some(fields[key]) else None
    case _ => None
  }

  function Descend(value: Option<Node>, tokens: seq<string>): Option<Node>
    decreases |tokens|
  {
    if tokens == [] then value else Descend(Step(value, tokens[0]), tokens[1..])
  }

  /** `pointer` begins with "#/", which is skipped unread. */
  function Resolve(root: Node, pointer: string): Option<Node>
    requires |pointer| >= 2
  {
    Descend(Some(root), Split(pointer[2..]))
  }

  // ----- pointers to nodes -------------------------------------------------

  datatype Part = Key(key: string) | Index(i: nat)

  /** The node at a path, if the tree has it. */
  function NodeAt(value: Node, path: seq<Part>): Option<Node> {
    if path == [] then Some(value)
    else match path[0]
      case Key(key) => if value.Record? && key in value.fields then NodeAt(value.fields[key], path[1..]) else None
      case Index(i) => if value.List? && i < |value.items| then NodeAt(value.items[i], path[1..]) else None
  }

  function Escape(s: string): string {
    if s == [] then []
    else (if s[0] == '~' then "~0" else if s[0] == '/' then "~1" else [s[0]]) + Escape(s[1..])
  }

  function TokenOf(part: Part): string {
    match part
    case Key(key) => Escape(key)
    case Index(i) => Decimal(i)
  }

  function Join(tokens: seq<string>): string
    requires tokens != []
  {
    if |tokens| == 1 then tokens[0] else tokens[0] + "/" + Join(tokens[1..])
  }

  function Tokens(path: seq<Part>): seq<string> {
    if path == [] then [] else [TokenOf(path[0])] + Tokens(path[1..])
  }

  function PointerTo(path: seq<Part>): string
    requires path != []
  {
    "#/" + Join(Tokens(path))
  }

  /** The key with only its tildes escaped: what is left after the first replacement. */
  function HalfEscaped(s: string): string {
    if s == [] then [] else (if s[0] == '~' then "~0" else [s[0]]) + HalfEscaped(s[1..])
  }

  lemma OtherStays(c: char, rest: string, digit: char, result: char)
    requires c != '~' || (rest != [] && rest[0] != digit)
    ensures Replace([c] + rest, digit, result) == [c] + Replace(rest, digit, result)
  {
    assert ([c] + rest)[1..] == rest;
  }

  lemma {:induction false} FirstReplacement(s: string)
    ensures Replace(Escape(s), '1', '/') == HalfEscaped(s)
  {
    if s != [] {
      FirstReplacement(s[1..]);
      var rest := Escape(s[1..]);
      if s[0] == '~' {
        OtherStays('~', ['0'] + rest, '1', '/');
        OtherStays('0', rest, '1', '/');
        assert Escape(s) == ['~'] + (['0'] + rest);
      } else if s[0] == '/' {
        assert Escape(s)[2..] == rest;
      } else {
        OtherStays(s[0], rest, '1', '/');
      }
    }
  }

  lemma {:induction false} SecondReplacement(s: string)
    ensures Replace(HalfEscaped(s), '0', '~') == s
  {
    if s != [] {
      SecondReplacement(s[1..]);
      var e := HalfEscaped(s);
      if s[0] == '~' {
        assert e[2..] == HalfEscaped(s[1..]);
      } else {
        assert e[1..] == HalfEscaped(s[1..]);
      }
      assert s == [s[0]] + s[1..];
    }
  }

  /** Replacing ~1 before ~0 undoes the escaping of every key. */
  lemma UnescapeInvertsEscape(key: string)
    ensures Unescape(Escape(key)) == key
  {
    FirstReplacement(key);
    SecondReplacement(key);
  }

  lemma {:induction false} PlainStays(s: string, digit: char, result: char)
    requires '~' !in s
    ensures Replace(s, digit, result) == s
  {
    if s != [] {
      PlainStays(s[1..], digit, result);
      assert s == [s[0]] + s[1..];
    }
  }

  lemma {:induction false} EscapedHasNoSlash(s: string)
    ensures '/' !in Escape(s)
  {
    if s != [] {
      EscapedHasNoSlash(s[1..]);
    }
  }

  lemma TokenHasNoSlash(part: Part)
    ensures '/' !in TokenOf(part)
  {
    if part.Key? {
      EscapedHasNoSlash(part.key);
    } else {
      assert forall c | c in Decimal(part.i) :: IsDigit(c);
    }
  }

  lemma {:induction false} SplitOne(token: string, rest: string)
    requires '/' !in token
    ensures Split(token) == [token]
    ensures Split(token + "/" + rest) == [token] + Split(rest)
  {
    if token == [] {
      assert token + "/" + rest == "/" + rest;
      assert ("/" + rest)[1..] == rest;
    } else {
      SplitOne(token[1..], rest);
      assert (token + "/" + rest)[1..] == token[1..] + "/" + rest;
      assert [token[0]] + token[1..] == token;
    }
  }

  lemma {:induction false} SplitInvertsJoin(path: seq<Part>)
    requires path != []
    ensures Split(Join(Tokens(path))) == Tokens(path)
  {
    TokenHasNoSlash(path[0]);
    if |path| == 1 {
      assert Tokens(path) == [TokenOf(path[0])];
      SplitOne(TokenOf(path[0]), "");
    } else {
      SplitInvertsJoin(path[1..]);
      assert Tokens(path)[1..] == Tokens(path[1..]) && |Tokens(path)| > 1;
      SplitOne(TokenOf(path[0]), Join(Tokens(path[1..])));
    }
  }

  lemma StepFollowsPart(value: Node, part: Part)
    requires NodeAt(value, [part]).Some?
    ensures Step(Some(value), TokenOf(part)) == NodeAt(value, [part])
  {
    if part.Key? {
      UnescapeInvertsEscape(part.key);
    } else {
      assert '~' !in Decimal(part.i) by {
        assert forall c | c in Decimal(part.i) :: IsDigit(c);
      }
      PlainStays(Decimal(part.i), '1', '/');
      PlainStays(Decimal(part.i), '0', '~');
      DecimalReadsBack(part.i);
    }
  }

  lemma {:induction false} DescendFollowsPath(value: Node, path: seq<Part>)
    requires NodeAt(value, path).Some?
    ensures Descend(Some(value), Tokens(path)) == NodeAt(value, path)
  {
    if path != [] {
      var one := if path[0].Key? then value.fields[path[0].key] else value.items[path[0].i];
      assert NodeAt(value, [path[0]]) == Some(one) by {
        assert [path[0]][1..] == [];
      }
      StepFollowsPart(value, path[0]);
      DescendFollowsPath(one, path[1..]);
      assert Tokens(path)[1..] == Tokens(path[1..]);
    }
  }

  /** The pointer to a node resolves to that node, in every tree and for every key. */
  lemma PointerResolvesToNode(root: Node, path: seq<Part>)
    requires path != [] && NodeAt(root, path).Some?
    ensures Resolve(root, PointerTo(path)) == NodeAt(root, path)
  {
    assert PointerTo(path)[2..] == Join(Tokens(path));
    SplitInvertsJoin(path);
    DescendFollowsPath(root, path);
  }
}
