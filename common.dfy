// Shared vocabulary: the library's exceptions as error values, optional
// values, and the few Java/Guava string operations the core relies on.

module Common {

  datatype Option<T> = None | Some(value: T)

  /** The exceptions the core raises, as values. */
  datatype Error =
    | InvalidCollection(name: string)          // DbContext.InvalidCollectionException
    | InvalidAssociation(kind: string, name: string) // DbContext.InvalidAssociationException
    | InvalidCriterion(message: string)        // Criterion.InvalidCriterionException
    | InvalidType(typeName: string)            // DbSerializer.InvalidTypeException
    | InvalidField(name: string)               // RuntimeException("Invalid field name ...")
    | IndexOutOfBounds(index: int)             // List.get / String.substring
    | NullPointer                              // a method called on null
    | IllegalArgument(message: string)         // Enum.valueOf of an unknown name
    | ClassCast                                // a JSON member of the wrong kind
    | IllegalState(message: string)            // a JSON token of the wrong kind
    | Runtime(message: string)                 // a wrapped RuntimeException
    | NoSuchColumn(name: string)               // SQLiteException: a statement names a column the table lacks

  datatype Result<T> = Ok(value: T) | Err(error: Error)

  // ---- ASCII case (Guava's Ascii and the ASCII part of Java's case mapping)

  predicate IsAsciiUpper(c: char) { 'A' <= c <= 'Z' }

  function ToAsciiLower(c: char): (r: char)
    ensures !IsAsciiUpper(r)
    ensures !IsAsciiUpper(c) ==> r == c
  {
    if IsAsciiUpper(c) then (c as int + 32) as char else c
  }

  function LowerAscii(s: string): (r: string)
    ensures |r| == |s|
    ensures forall i :: 0 <= i < |s| ==> r[i] == ToAsciiLower(s[i])
  {
    seq(|s|, i requires 0 <= i < |s| => ToAsciiLower(s[i]))
  }

  /**
   * Java's String.equalsIgnoreCase restricted to ASCII letters: equal
   * lengths, and each pair of characters equal once both are lower-cased.
   */
  predicate EqualsIgnoreCase(a: string, b: string) {
    |a| == |b| && forall i :: 0 <= i < |a| ==> ToAsciiLower(a[i]) == ToAsciiLower(b[i])
  }

  lemma EqualsIgnoreCaseIsLowerEquality(a: string, b: string)
    ensures EqualsIgnoreCase(a, b) <==> LowerAscii(a) == LowerAscii(b)
  {
    if LowerAscii(a) == LowerAscii(b) {
      assert |a| == |LowerAscii(a)|;
      forall i | 0 <= i < |a| ensures ToAsciiLower(a[i]) == ToAsciiLower(b[i]) {
        assert LowerAscii(a)[i] == LowerAscii(b)[i];
      }
    }
  }

  // ---- joining and counting

  /** Java's TextUtils.join / String.join: parts separated by `sep`. */
  function Join(sep: string, parts: seq<string>): string {
    if parts == [] then ""
    else if |parts| == 1 then parts[0]
    else parts[0] + sep + Join(sep, parts[1..])
  }

  /** Joining one more part adds the separator and the part at the end. */
  lemma {:induction false} JoinAppend(sep: string, parts: seq<string>, p: string)
    requires parts != []
    ensures Join(sep, parts + [p]) == Join(sep, parts) + sep + p
    decreases |parts|
  {
    if |parts| > 1 {
      assert (parts + [p])[1..] == parts[1..] + [p];
      JoinAppend(sep, parts[1..], p);
    } else {
      assert (parts + [p])[1..] == [p];
    }
  }

  function CountChar(s: string, c: char): (n: nat)
    ensures n <= |s|
  {
    if s == [] then 0 else (if s[0] == c then 1 else 0) + CountChar(s[1..], c)
  }

  lemma {:induction false} CountCharAppend(a: string, b: string, c: char)
    ensures CountChar(a + b, c) == CountChar(a, c) + CountChar(b, c)
  {
    if a == [] {
      assert a + b == b;
    } else {
      assert (a + b)[1..] == a[1..] + b;
      CountCharAppend(a[1..], b, c);
    }
  }

  /** Index of the first occurrence of `c`, or -1 (Java's indexOf). */
  function IndexOf(s: string, c: char): (r: int)
    ensures -1 <= r < |s|
    ensures r == -1 <==> c !in s
    ensures r >= 0 ==> s[r] == c && forall i :: 0 <= i < r ==> s[i] != c
  {
    if s == [] then -1
    else if s[0] == c then 0
    else
      var k := IndexOf(s[1..], c);
      if k < 0 then -1 else k + 1
  }

  // ---- Guava CharMatcher.whitespace() and trimming

  predicate IsWhitespace(c: char) {
    c == ' ' || c == '\t' || c == '\n' || c == '\r' || c == '\U{B}' || c == '\U{C}'
    || c == '\U{85}' || c == '\U{A0}' || c == '\U{1680}' || ('\U{2000}' <= c <= '\U{200A}')
    || c == '\U{2028}' || c == '\U{2029}' || c == '\U{202F}' || c == '\U{205F}' || c == '\U{3000}'
  }

  function TrimStart(s: string): (r: string)
    ensures |r| <= |s| && r == s[|s| - |r|..]
    ensures r != [] ==> !IsWhitespace(r[0])
    ensures (s == [] || !IsWhitespace(s[0])) ==> r == s
  {
    if s != [] && IsWhitespace(s[0]) then TrimStart(s[1..]) else s
  }

  function TrimEnd(s: string): (r: string)
    ensures |r| <= |s| && r == s[..|r|]
    ensures r != [] ==> !IsWhitespace(r[|r| - 1])
    ensures (s == [] || !IsWhitespace(s[|s| - 1])) ==> r == s
  {
    if s != [] && IsWhitespace(s[|s| - 1]) then TrimEnd(s[..|s| - 1]) else s
  }

  /** Guava's trimResults(): whitespace removed at both ends. */
  function Trim(s: string): string {
    TrimEnd(TrimStart(s))
  }

  lemma TrimOfClean(s: string)
    requires forall i :: 0 <= i < |s| ==> !IsWhitespace(s[i])
    ensures Trim(s) == s
  {
  }

  // ---- searching a list

  /** The first position whose element satisfies `p`, or -1: the shape of
    * every `for (x : list) if (...) return x;` lookup in the library. */
  function FirstIndex<T>(xs: seq<T>, p: T -> bool): (r: int)
    ensures -1 <= r < |xs|
    ensures r == -1 <==> forall i :: 0 <= i < |xs| ==> !p(xs[i])
    ensures r >= 0 ==> p(xs[r]) && forall i :: 0 <= i < r ==> !p(xs[i])
  {
    if xs == [] then -1
    else if p(xs[0]) then 0
    else
      var k := FirstIndex(xs[1..], p);
      if k < 0 then -1 else k + 1
  }

  // ---- Guava Splitter

  /** Splitter.on(matcher).split(s): the pieces between separators, empty
    * pieces included, so there is always at least one. */
  function Split(s: string, isSep: char -> bool): (parts: seq<string>)
    ensures |parts| > 0
  {
    if s == [] then [""]
    else if isSep(s[0]) then [""] + Split(s[1..], isSep)
    else
      var rest := Split(s[1..], isSep);
      [[s[0]] + rest[0]] + rest[1..]
  }

  /** Splitting on one character and joining with it gives the input back. */
  lemma {:induction false} SplitJoin(s: string, c: char)
    ensures Join([c], Split(s, x => x == c)) == s
  {
    var p := Split(s, x => x == c);
    if s == [] {
    } else if s[0] == c {
      SplitJoin(s[1..], c);
      var rest := Split(s[1..], x => x == c);
      assert p == [""] + rest;
      assert Join([c], p) == "" + [c] + Join([c], rest);
    } else {
      SplitJoin(s[1..], c);
      var rest := Split(s[1..], x => x == c);
      assert p == [[s[0]] + rest[0]] + rest[1..];
      if |rest| == 1 {
        assert Join([c], p) == [s[0]] + rest[0];
      } else {
        assert Join([c], rest) == rest[0] + [c] + Join([c], rest[1..]);
        assert p[1..] == rest[1..];
      }
    }
  }

  /** A separator splits the text into the pieces before and after it. */
  lemma {:induction false} SplitAtSeparator(a: string, c: char, b: string, isSep: char -> bool)
    requires isSep(c)
    ensures Split(a + [c] + b, isSep) == Split(a, isSep) + Split(b, isSep)
    decreases |a|
  {
    if a == [] {
      assert a + [c] + b == [c] + b;
      SplitHead(c, b, isSep);
    } else {
      var t := a[1..] + [c] + b;
      assert a + [c] + b == [a[0]] + t;
      assert a == [a[0]] + a[1..];
      SplitHead(a[0], t, isSep);
      SplitHead(a[0], a[1..], isSep);
      SplitAtSeparator(a[1..], c, b, isSep);
      ConsPieces(a[0], Split(a[1..], isSep), Split(b, isSep), isSep(a[0]));
    }
  }

  /** Split unfolded once on a non-empty text. */
  lemma SplitHead(x: char, t: string, isSep: char -> bool)
    ensures Split([x] + t, isSep) ==
              if isSep(x) then [""] + Split(t, isSep)
              else [[x] + Split(t, isSep)[0]] + Split(t, isSep)[1..]
  {
    assert ([x] + t)[0] == x && ([x] + t)[1..] == t;
  }

  /** Putting a character in front of the first of two piece lists. */
  lemma ConsPieces(x: char, ra: seq<string>, rb: seq<string>, sep: bool)
    requires ra != []
    ensures (if sep then [""] + (ra + rb) else [[x] + (ra + rb)[0]] + (ra + rb)[1..]) ==
              (if sep then [""] + ra else [[x] + ra[0]] + ra[1..]) + rb
  {
    assert (ra + rb)[0] == ra[0] && (ra + rb)[1..] == ra[1..] + rb;
  }

  /** Text without separators is a single piece. */
  lemma {:induction false} SplitClean(a: string, isSep: char -> bool)
    requires forall i :: 0 <= i < |a| ==> !isSep(a[i])
    ensures Split(a, isSep) == [a]
  {
    if a != [] {
      SplitClean(a[1..], isSep);
      assert [a[0]] + a[1..] == a;
    }
  }

  /** Splitting on a single character gives one more piece than there are
    * occurrences of it. */
  lemma {:induction false} SplitCount(s: string, c: char, isSep: char -> bool)
    requires forall x :: isSep(x) <==> x == c
    ensures |Split(s, isSep)| == CountChar(s, c) + 1
  {
    if s != [] {
      SplitCount(s[1..], c, isSep);
    }
  }
}
