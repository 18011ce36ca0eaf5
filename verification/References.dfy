// The reference strings that internal/openapi/generate.go emits, and what they point to: a URI
// fragment (section 3.5 of RFC 3986) that holds a JSON pointer (RFC 6901).
module References {
  import opened Graphs

  const SCHEMAS := "#/components/schemas/"

  /** The name is appended as it is. */
  function RefTo(name: string): string {
    SCHEMAS + name
  }

  // ---- reading a reference ----

  function HexDigit(c: char): Option<nat> {
    if '0' <= c <= '9' then Some(c as int - '0' as int)
    else if 'a' <= c <= 'f' then Some(c as int - 'a' as int + 10)
    else if 'A' <= c <= 'F' then Some(c as int - 'A' as int + 10)
    else None
  }

  function Prepend(c: char, rest: Option<string>): Option<string> {
    if rest.None? then None else Some([c] + rest.value)
  }

  /** Percent-decoding, section 2.1 of RFC 3986. */
  function Decode(s: string): Option<string> {
    if s == [] then Some([])
    else if s[0] != '%' then Prepend(s[0], Decode(s[1..]))
    else if |s| < 3 || HexDigit(s[1]).None? || HexDigit(s[2]).None? || HexDigit(s[1]).value > 15
        || HexDigit(s[2]).value > 15 then None
    else Prepend((16 * HexDigit(s[1]).value + HexDigit(s[2]).value) as char, Decode(s[3..]))
  }

  /** The tokens between slashes. */
  function Split(s: string): (tokens: seq<string>)
    ensures tokens != []
  {
    if s == [] then [[]]
    else if s[0] == '/' then [[]] + Split(s[1..])
    else
      var rest := Split(s[1..]);
      [[s[0]] + rest[0]] + rest[1..]
  }

  /** Escapes of a token: a tilde is written ~0, a slash ~1. */
  function Unescape(token: string): Option<string> {
    if token == [] then Some([])
    else if token[0] != '~' then Prepend(token[0], Unescape(token[1..]))
    else if |token| < 2 then None
    else if token[1] == '0' then Prepend('~', Unescape(token[2..]))
    else if token[1] == '1' then Prepend('/', Unescape(token[2..]))
    else None
  }

  function UnescapeAll(tokens: seq<string>): Option<seq<string>> {
    if tokens == [] then Some([])
    else
      var first, rest := Unescape(tokens[0]), UnescapeAll(tokens[1..]);
      if first.None? || rest.None? then None else Some([first.value] + rest.value)
  }

  /** The place in its own document that a reference points to, as the keys on the way there. */
  function PlaceOf(ref: string): Option<seq<string>> {
    if ref == [] || ref[0] != '#' then None
    else
      var pointer := Decode(ref[1..]);
      if pointer.None? then None
      else if pointer.value == [] then Some([])
      else if pointer.value[0] != '/' then None
      else UnescapeAll(Split(pointer.value[1..]))
  }

  /** The component of the document that a reference points to, if it points to one. */
  function ComponentOf(ref: string): Option<string> {
    var place := PlaceOf(ref);
    if place.Some? && |place.value| == 3 && place.value[0] == "components"
        && place.value[1] == "schemas" then Some(place.value[2])
    else None
  }

  // ---- when a reference comes back to the name it was made of ----

  predicate Plain(name: string) {
    '/' !in name && '~' !in name && '%' !in name
  }

  lemma {:induction false} DecodeSkips(a: string, x: string)
    requires '%' !in a
    ensures Decode(a + x) == if Decode(x).None? then None else Some(a + Decode(x).value)
  {
    if a == [] {
      assert a + x == x && Decode(x).Some? ==> a + Decode(x).value == Decode(x).value;
    } else {
      assert (a + x)[1..] == a[1..] + x && a[0] != '%';
      DecodeSkips(a[1..], x);
      if Decode(x).Some? {
        assert [a[0]] + (a[1..] + Decode(x).value) == a + Decode(x).value;
      }
    }
  }

  /** Decoding shortens whatever it changes. */
  lemma {:induction false} DecodeShortens(x: string)
    ensures Decode(x).Some? ==> |Decode(x).value| <= |x|
    ensures Decode(x).Some? && |Decode(x).value| == |x| ==> '%' !in x
  {
    if x != [] {
      if x[0] != '%' {
        DecodeShortens(x[1..]);
      } else if |x| >= 3 {
        DecodeShortens(x[3..]);
      }
    }
  }

  lemma {:induction false} DecodeKeepsSlashes(x: string)
    requires Decode(x).Some? && '/' in x
    ensures '/' in Decode(x).value
  {
    if x[0] != '%' {
      if x[0] != '/' {
        DecodeKeepsSlashes(x[1..]);
      }
    } else {
      assert x == x[..3] + x[3..] && x[..3] == [x[0], x[1], x[2]];
      DecodeKeepsSlashes(x[3..]);
    }
  }

  lemma {:induction false} SplitAtSlash(a: string, x: string)
    requires '/' !in a
    ensures Split(a + ['/'] + x) == [a] + Split(x)
  {
    if a == [] {
      assert a + ['/'] + x == ['/'] + x;
      assert (['/'] + x)[1..] == x;
    } else {
      var s := a + ['/'] + x;
      assert s[1..] == a[1..] + ['/'] + x && s[0] == a[0];
      SplitAtSlash(a[1..], x);
      assert [a[0]] + a[1..] == a;
    }
  }

  lemma {:induction false} OneTokenIff(s: string)
    ensures |Split(s)| == 1 <==> '/' !in s
    ensures '/' !in s ==> Split(s) == [s]
  {
    if s != [] {
      OneTokenIff(s[1..]);
      assert s == [s[0]] + s[1..];
    }
  }

  lemma {:induction false} UnescapeShortens(token: string)
    ensures Unescape(token).Some? ==> |Unescape(token).value| <= |token|
    ensures Unescape(token).Some? && |Unescape(token).value| == |token| ==> '~' !in token
  {
    if token != [] {
      if token[0] != '~' {
        UnescapeShortens(token[1..]);
      } else if |token| >= 2 {
        UnescapeShortens(token[2..]);
      }
    }
  }

  lemma {:induction false} UnescapeKeeps(token: string)
    requires '~' !in token
    ensures Unescape(token) == Some(token)
  {
    if token != [] {
      UnescapeKeeps(token[1..]);
      assert [token[0]] + token[1..] == token;
    }
  }

  lemma {:induction false} UnescapeAllKeepsLength(tokens: seq<string>)
    ensures UnescapeAll(tokens).Some? ==> |UnescapeAll(tokens).value| == |tokens|
  {
    if tokens != [] {
      UnescapeAllKeepsLength(tokens[1..]);
    }
  }

  lemma SplitAtSlashes(a: string, b: string, x: string)
    requires '/' !in a && '/' !in b
    ensures Split(a + ['/'] + b + ['/'] + x) == [a, b] + Split(x)
  {
    assert a + ['/'] + b + ['/'] + x == a + ['/'] + (b + ['/'] + x);
    SplitAtSlash(a, b + ['/'] + x);
    SplitAtSlash(b, x);
    assert [a] + ([b] + Split(x)) == [a, b] + Split(x);
  }

  lemma PathIsTokens()
    ensures SCHEMAS[1..] == ['/'] + ("components" + ['/'] + "schemas" + ['/'])
    ensures '%' !in SCHEMAS[1..] && '/' !in "components" && '/' !in "schemas"
  {
  }

  lemma AppendedToPath(path: string, name: string, x: string)
    requires SCHEMAS[1..] == ['/'] + path
    ensures RefTo(name)[0] == '#' && RefTo(name)[1..] == (['/'] + path) + name
    ensures ((['/'] + path) + x)[0] == '/' && ((['/'] + path) + x)[1..] == path + x
  {
    assert RefTo(name)[1..] == SCHEMAS[1..] + name;
  }

  /** Where a reference to a name leads: below the components, along the tokens of the name. */
  lemma PlaceOfName(name: string)
    ensures PlaceOf(RefTo(name)) ==
            if Decode(name).None? then None else UnescapeAll(["components", "schemas"] + Split(Decode(name).value))
  {
    PathIsTokens();
    var path := "components" + ['/'] + "schemas" + ['/'];
    DecodeSkips(['/'] + path, name);
    if Decode(name).Some? {
      AppendedToPath(path, name, Decode(name).value);
      SplitAtSlashes("components", "schemas", Decode(name).value);
    } else {
      AppendedToPath(path, name, []);
    }
  }

  lemma UnescapeBelow(a: string, b: string, tokens: seq<string>)
    requires '~' !in a && '~' !in b
    ensures UnescapeAll([a, b] + tokens) == if UnescapeAll(tokens).None? then None
              else Some([a, b] + UnescapeAll(tokens).value)
  {
    UnescapeKeeps(a);
    UnescapeKeeps(b);
    assert ([a, b] + tokens)[1..] == [b] + tokens && ([b] + tokens)[1..] == tokens;
    if UnescapeAll(tokens).Some? {
      assert [a] + ([b] + UnescapeAll(tokens).value) == [a, b] + UnescapeAll(tokens).value;
    }
  }

  /** The component that a reference to a name points to: what a name without slashes decodes to. */
  lemma ComponentOfName(name: string)
    ensures ComponentOf(RefTo(name)) ==
            if Decode(name).None? || '/' in Decode(name).value then None else Unescape(Decode(name).value)
  {
    PlaceOfName(name);
    if Decode(name).Some? {
      var x := Decode(name).value;
      UnescapeBelow("components", "schemas", Split(x));
      UnescapeAllKeepsLength(Split(x));
      OneTokenIff(x);
      if '/' !in x {
        assert Split(x)[1..] == [];
        assert Unescape(x).Some? ==> UnescapeAll(Split(x)).value == [Unescape(x).value];
      }
    }
  }

  /** A reference points to the component it is meant for if and only if the name holds none of
      the characters that need escaping. */
  lemma PointsHomeIff(name: string)
    ensures ComponentOf(RefTo(name)) == Some(name) <==> Plain(name)
  {
    ComponentOfName(name);
    if ComponentOf(RefTo(name)) == Some(name) {
      DecodeShortens(name);
      UnescapeShortens(Decode(name).value);
      DecodeSkips(name, []);
      assert name + [] == name;
    }
    if Plain(name) {
      DecodeSkips(name, []);
      assert name + [] == name;
      UnescapeKeeps(name);
    }
  }

  /** A name with a slash in it makes a reference that points to no component at all. */
  lemma SlashPointsNowhere(name: string)
    requires '/' in name
    ensures ComponentOf(RefTo(name)) == None
  {
    ComponentOfName(name);
    if Decode(name).Some? {
      DecodeKeepsSlashes(name);
    }
  }
}
