// ParamsParser: a URL-encoded parameter string (`a=b&c[d]=e`) turned into a
// JSON object, with one level of nesting for bracketed keys.

module Params {
  import opened Common
  import opened Values

  predicate IsAmpersand(c: char) { c == '&' }
  predicate IsEquals(c: char) { c == '=' }

  /** stringToPrimitive: `true` and `false` in any case become booleans,
    * any other text stays a string. */
  function StringToPrimitive(s: string): (j: Json)
    ensures j.JBool? || j.JString?
    ensures j == JBool(true) <==> EqualsIgnoreCase(s, "true")
    ensures j == JBool(false) <==> EqualsIgnoreCase(s, "false")
    ensures j.JString? ==> j.s == s
  {
    if EqualsIgnoreCase(s, "true") then JBool(true)
    else if EqualsIgnoreCase(s, "false") then JBool(false)
    else JString(s)
  }

  lemma BooleanTexts()
    ensures StringToPrimitive("TRUE") == JBool(true)
    ensures StringToPrimitive("False") == JBool(false)
    ensures StringToPrimitive("yes") == JString("yes")
    ensures StringToPrimitive("42") == JString("42")
  {
    assert !EqualsIgnoreCase("yes", "true") by { assert ToAsciiLower("yes"[0]) != ToAsciiLower("true"[0]); }
    assert !EqualsIgnoreCase("yes", "false");
  }

  /** Where one parameter's value is stored. */
  datatype Target = TopLevel(key: string) | Nested(outer: string, inner: string)

  /**
   * The key of one parameter. A key containing '[' names the member between
   * the first '[' and the first ']' of the object named by the text before
   * the '['; when that ']' is missing or comes first, the substring call
   * fails.
   */
  function ParseKey(key: string): (r: Result<Target>)
    ensures '[' !in key ==> r == Ok(TopLevel(key))
    ensures '[' in key ==> (r.Err? <==> IndexOf(key, ']') < IndexOf(key, '['))
    ensures r.Err? ==> r.error.IndexOutOfBounds?
  {
    if '[' !in key then Ok(TopLevel(key))
    else
      var open, close := IndexOf(key, '['), IndexOf(key, ']');
      if close < open + 1 then Err(IndexOutOfBounds(close))
      else Ok(Nested(key[..open], key[open + 1..close]))
  }

  /** A nested key is read as `outer[inner]` followed by anything, with no
    * bracket in `outer` and no closing bracket in `inner`. */
  lemma ParseKeyShape(key: string)
    requires ParseKey(key).Ok? && ParseKey(key).value.Nested?
    ensures var t := ParseKey(key).value;
            '[' !in t.outer && ']' !in t.outer && ']' !in t.inner &&
            |t.outer| + |t.inner| + 2 <= |key| &&
            key[..|t.outer| + |t.inner| + 2] == t.outer + "[" + t.inner + "]"
  {
    var open, close := IndexOf(key, '['), IndexOf(key, ']');
    var outer, inner := key[..open], key[open + 1..close];
    assert ']' !in outer by { assert outer == key[..close][..open]; }
    assert ']' !in inner by { assert inner == key[..close][open + 1..]; }
    assert key[..close + 1] == key[..open] + [key[open]] + key[open + 1..close] + [key[close]];
  }

  /** The other direction: a bracketed key is read back into its parts,
    * whatever follows the closing bracket. */
  lemma NestedKeyParts(outer: string, inner: string, rest: string)
    requires '[' !in outer && ']' !in outer && ']' !in inner
    ensures ParseKey(outer + "[" + inner + "]" + rest) == Ok(Nested(outer, inner))
  {
    BracketPositions(outer, inner, rest);
    ParseKeyAt(outer + "[" + inner + "]" + rest, |outer|, |outer| + 1 + |inner|);
  }

  /** What ParseKey reads from a key whose first '[' comes before its
    * first ']'. */
  lemma ParseKeyAt(key: string, open: nat, close: nat)
    requires open < close < |key| && IndexOf(key, '[') == open && IndexOf(key, ']') == close
    ensures ParseKey(key) == Ok(Nested(key[..open], key[open + 1..close]))
  {
    assert key[open] == '[';
  }

  /** Where the brackets of `outer[inner]rest` are. */
  lemma BracketPositions(outer: string, inner: string, rest: string)
    requires '[' !in outer && ']' !in outer && ']' !in inner
    ensures var key := outer + "[" + inner + "]" + rest;
            |outer| + 1 + |inner| < |key| &&
            IndexOf(key, '[') == |outer| && IndexOf(key, ']') == |outer| + 1 + |inner| &&
            key[..|outer|] == outer && key[|outer| + 1..|outer| + 1 + |inner|] == inner
  {
    var key := outer + "[" + inner + "]" + rest;
    var n, m := |outer|, |outer| + 1 + |inner|;
    assert key[..n] == outer;
    assert key[n] == '[';
    assert key[..m] == outer + "[" + inner;
    assert key[m] == ']';
    assert key[n + 1..m] == inner;
    IndexOfUnique(key, '[', n);
    IndexOfUnique(key, ']', m);
  }

  /** The first occurrence is the one with no earlier occurrence. */
  lemma IndexOfUnique(s: string, c: char, n: nat)
    requires n < |s| && s[n] == c && c !in s[..n]
    ensures IndexOf(s, c) == n
  {
    assert s[..n + 1] == s[..n] + [c];
  }

  /** One `key=value` piece applied to the object built so far; a piece
    * that does not split into exactly two parts on '=' is skipped. A member
    * already stored under the outer name that is not an object cannot be
    * cast to one. */
  function AddParam(root: JsonRow, param: string): Result<JsonRow> {
    var comps := Split(param, IsEquals);
    if |comps| != 2 then Ok(root)
    else
      var value := StringToPrimitive(comps[1]);
      match ParseKey(comps[0])
      case Err(e) => Err(e)
      case Ok(TopLevel(key)) => Ok(root[key := value])
      case Ok(Nested(outer, inner)) =>
        var sub := if outer in root then root[outer] else JObject(map[]);
        if !sub.JObject? then Err(ClassCast)
        else Ok(root[outer := JObject(sub.members[inner := value])])
  }

  /** The pieces applied in order to an empty object; the first failure
    * ends the parse. */
  function ParseAll(pieces: seq<string>): Result<JsonRow>
    decreases |pieces|
  {
    if pieces == [] then Ok(map[])
    else match ParseAll(pieces[..|pieces| - 1])
      case Err(e) => Err(e)
      case Ok(root) => AddParam(root, pieces[|pieces| - 1])
  }

  /** What toJson returns for a parameter string. */
  function ParamsToJson(params: string): Result<JsonRow> {
    ParseAll(Split(params, IsAmpersand))
  }

  class ParamsParser {
    const params: string

    constructor (params: string)
      ensures this.params == params
    {
      this.params := params;
    }

    /** toJson: one pass over the '&'-separated pieces, updating the root
      * object (and the nested object a bracketed key names) as it goes. */
    method ToJson() returns (r: Result<JsonRow>)
      ensures r == ParamsToJson(params)
    {
      var pieces := Split(params, IsAmpersand);
      var root: JsonRow := map[];
      var i := 0;
      while i < |pieces|
        invariant 0 <= i <= |pieces|
        invariant ParseAll(pieces[..i]) == Ok(root)
      {
        assert pieces[..i + 1][..i] == pieces[..i];
        assert ParseAll(pieces[..i + 1]) == AddParam(root, pieces[i]);
        var comps := Split(pieces[i], IsEquals);
        if |comps| == 2 {
          var value := StringToPrimitive(comps[1]);
          var key := ParseKey(comps[0]);
          if key.Err? {
            FailureIsFinal(pieces, i + 1);
            return Err(key.error);
          }
          match key.value
          case TopLevel(k) =>
            root := root[k := value];
          case Nested(outer, inner) =>
            var sub := if outer in root then root[outer] else JObject(map[]);
            if !sub.JObject? {
              FailureIsFinal(pieces, i + 1);
              return Err(ClassCast);
            }
            root := root[outer := JObject(sub.members[inner := value])];
        }
        i := i + 1;
      }
      assert pieces[..i] == pieces;
      return Ok(root);
    }
  }

  // ---- properties of the parse

  /** Once a piece fails, the later pieces are never applied. */
  lemma {:induction false} FailureIsFinal(pieces: seq<string>, i: nat)
    requires i <= |pieces| && ParseAll(pieces[..i]).Err?
    ensures ParseAll(pieces) == ParseAll(pieces[..i])
    decreases |pieces| - i
  {
    if i < |pieces| {
      assert pieces[..i + 1][..i] == pieces[..i];
      FailureIsFinal(pieces, i + 1);
    } else {
      assert pieces[..i] == pieces;
    }
  }

  /** An empty string is one empty piece, which is skipped. */
  lemma EmptyParamsGiveEmptyObject()
    ensures ParamsToJson("") == Ok(map[])
  {
    assert Split("", IsAmpersand) == [""];
    assert Split("", IsEquals) == [""];
    assert [""][..0] == [];
  }

  /** A piece with no '=' or with more than one is skipped. */
  lemma SkippedPiece(root: JsonRow, param: string)
    requires CountChar(param, '=') != 1
    ensures AddParam(root, param) == Ok(root)
  {
    SplitCount(param, '=', IsEquals);
  }

  lemma KeyValueSplit(k: string, v: string)
    requires '=' !in k && '=' !in v
    ensures Split(k + "=" + v, IsEquals) == [k, v]
  {
    SplitAtSeparator(k, '=', v, IsEquals);
    SplitClean(k, IsEquals);
    SplitClean(v, IsEquals);
  }

  /** A key without '[' stores the value at the top level, replacing any
    * earlier value of that key. */
  lemma TopLevelPiece(root: JsonRow, key: string, v: string)
    requires '=' !in key && '=' !in v && '[' !in key
    ensures AddParam(root, key + "=" + v) == Ok(root[key := StringToPrimitive(v)])
  {
    KeyValueSplit(key, v);
  }

  /** A key `outer[inner]` stores the value under `inner` in the object
    * `outer`: a new object on first use, the existing one (with its other
    * members kept) afterwards. */
  lemma NestedPiece(root: JsonRow, outer: string, inner: string, rest: string, v: string)
    requires '[' !in outer && ']' !in outer && ']' !in inner
    requires '=' !in outer + "[" + inner + "]" + rest && '=' !in v
    ensures outer !in root ==>
              AddParam(root, outer + "[" + inner + "]" + rest + "=" + v)
              == Ok(root[outer := JObject(map[inner := StringToPrimitive(v)])])
    ensures outer in root && root[outer].JObject? ==>
              AddParam(root, outer + "[" + inner + "]" + rest + "=" + v)
              == Ok(root[outer := JObject(root[outer].members[inner := StringToPrimitive(v)])])
    ensures outer in root && !root[outer].JObject? ==>
              AddParam(root, outer + "[" + inner + "]" + rest + "=" + v) == Err(ClassCast)
  {
    KeyValueSplit(outer + "[" + inner + "]" + rest, v);
    NestedKeyParts(outer, inner, rest);
  }

  /** A '[' with no ']' after it makes the whole parse fail. */
  lemma UnclosedBracketFails(root: JsonRow, key: string, v: string)
    requires '=' !in key && '=' !in v && '[' in key && ']' !in key
    ensures AddParam(root, key + "=" + v).Err?
  {
    KeyValueSplit(key, v);
  }

  /** Appending a piece applies it to what the earlier pieces built. */
  lemma ParamsAppend(params: string, p: string)
    requires '&' !in p
    ensures ParamsToJson(params + "&" + p) ==
              match ParamsToJson(params)
              case Err(e) => Err(e)
              case Ok(root) => AddParam(root, p)
  {
    SplitAtSeparator(params, '&', p, IsAmpersand);
    SplitClean(p, IsAmpersand);
    var ps := Split(params, IsAmpersand) + [p];
    assert ps[..|ps| - 1] == Split(params, IsAmpersand);
  }

  lemma SinglePiece(p: string)
    requires '&' !in p
    ensures ParamsToJson(p) == AddParam(map[], p)
  {
    SplitClean(p, IsAmpersand);
    assert Split(p, IsAmpersand) == [p];
    assert [p][..0] == [];
    assert ParseAll([p]) == AddParam(map[], p);
  }

  /** The library's own example: two members of `where` and a top-level
    * `limit`, all kept as text (42 and 10 read back as numbers). */
  lemma WhereUserIdAgeLimit(params: string)
    requires params == "where[user_id]=qwe123&where[age]=42&limit=10"
    ensures ParamsToJson(params) ==
              Ok(map["where" := JObject(map["user_id" := JString("qwe123"), "age" := JString("42")]),
                     "limit" := JString("10")])
  {
    var p1, p2, p3 := "where[user_id]=qwe123", "where[age]=42", "limit=10";
    assert params == (p1 + "&" + p2) + "&" + p3;
    ExampleAge(p1, p2);
    ParamsAppend(p1 + "&" + p2, p3);
    var r2 := map["where" := JObject(map["user_id" := JString("qwe123"), "age" := JString("42")])];
    ExampleLimit(r2, p3);
    assert r2["limit" := JString("10")] ==
             map["where" := JObject(map["user_id" := JString("qwe123"), "age" := JString("42")]),
                 "limit" := JString("10")];
  }

  /** The test reads `age` and `limit` back as the numbers 42 and 10. */
  lemma ExampleNumbers()
    ensures ParseDecimal("42") == Some(42) && ParseDecimal("10") == Some(10)
  {
    assert DigitsValue("42") == 42 by { assert "42"[..1] == "4"; assert "4"[..0] == ""; }
    assert DigitsValue("10") == 10 by { assert "10"[..1] == "1"; assert "1"[..0] == ""; }
  }

  lemma ExampleUserId(p1: string)
    requires p1 == "where[user_id]=qwe123"
    ensures ParamsToJson(p1) == Ok(map["where" := JObject(map["user_id" := JString("qwe123")])])
  {
    var o, i, v := "where", "user_id", "qwe123";
    UserIdPiece(p1);
    SinglePiece(p1);
    NestedPiece(map[], o, i, "", v);
    ghost var empty: JsonRow := map[];
    assert empty[o := JObject(map[i := JString(v)])] == map["where" := JObject(map["user_id" := JString("qwe123")])];
  }

  /** The first piece of the example, taken apart. */
  lemma UserIdPiece(p1: string)
    requires p1 == "where[user_id]=qwe123"
    ensures '&' !in p1
    ensures p1 == "where" + "[" + "user_id" + "]" + "" + "=" + "qwe123"
    ensures '[' !in "where" && ']' !in "where" && ']' !in "user_id" && '=' !in "qwe123"
    ensures '=' !in "where" + "[" + "user_id" + "]" + ""
    ensures StringToPrimitive("qwe123") == JString("qwe123")
  {
    assert !EqualsIgnoreCase("qwe123", "true") && !EqualsIgnoreCase("qwe123", "false");
  }

  lemma ExampleAge(p1: string, p2: string)
    requires p1 == "where[user_id]=qwe123" && p2 == "where[age]=42"
    ensures ParamsToJson(p1 + "&" + p2) ==
              Ok(map["where" := JObject(map["user_id" := JString("qwe123"), "age" := JString("42")])])
  {
    var r1 := map["where" := JObject(map["user_id" := JString("qwe123")])];
    AgePiece(r1, p2);
    ExampleUserId(p1);
    ParamsAppend(p1, p2);
    assert ParamsToJson(p1 + "&" + p2) == AddParam(r1, p2);
    var m := map["user_id" := JString("qwe123"), "age" := JString("42")];
    assert r1["where"].members["age" := JString("42")] == m;
    assert r1["where" := JObject(m)] == map["where" := JObject(m)];
  }

  lemma AgePiece(r1: JsonRow, p2: string)
    requires r1 == map["where" := JObject(map["user_id" := JString("qwe123")])] && p2 == "where[age]=42"
    ensures AddParam(r1, p2) == Ok(r1["where" := JObject(r1["where"].members["age" := JString("42")])])
  {
    var o, i, v := "where", "age", "42";
    assert p2 == o + "[" + i + "]" + "" + "=" + v;
    assert StringToPrimitive(v) == JString(v);
    NestedPiece(r1, o, i, "", v);
  }

  lemma ExampleLimit(r2: JsonRow, p3: string)
    requires p3 == "limit=10"
    ensures AddParam(r2, p3) == Ok(r2["limit" := JString("10")])
  {
    var k, v := "limit", "10";
    assert StringToPrimitive(v) == JString(v);
    assert p3 == k + "=" + v;
    TopLevelPiece(r2, k, v);
  }
}
