// Name derivation: Guava's CaseFormat conversion from UpperCamel /
// lowerCamel to lower_underscore, and the table, column and foreign-key
// names the library derives with it.

module Naming {
  import opened Common

  /**
   * The i-th character of s after conversion: an upper-case ASCII letter
   * after the first position starts a new word, so it is preceded by '_';
   * every upper-case ASCII letter is lower-cased; anything else is kept.
   * (For these two source formats Guava splits words before each 'A'..'Z'
   * and a boundary at position 0 produces no separator.)
   */
  function Piece(s: string, i: nat): string
    requires i < |s|
  {
    if IsAsciiUpper(s[i]) && i > 0 then ['_', ToAsciiLower(s[i])] else [ToAsciiLower(s[i])]
  }

  /** CaseFormat.LOWER_CAMEL.to(LOWER_UNDERSCORE, s), which for these inputs
    * is also CaseFormat.UPPER_CAMEL.to(LOWER_UNDERSCORE, s). */
  function LowerUnderscore(s: string): string
    decreases |s|
  {
    if s == [] then [] else LowerUnderscore(s[..|s| - 1]) + Piece(s, |s| - 1)
  }

  function Strip(s: string, c: char): (r: string)
    ensures c !in r
  {
    if s == [] then [] else (if s[0] == c then [] else [s[0]]) + Strip(s[1..], c)
  }

  lemma {:induction false} StripAppend(a: string, b: string, c: char)
    ensures Strip(a + b, c) == Strip(a, c) + Strip(b, c)
  {
    if a == [] {
      assert a + b == b;
    } else {
      var h := if a[0] == c then [] else [a[0]];
      assert (a + b)[0] == a[0] && (a + b)[1..] == a[1..] + b;
      assert Strip(a + b, c) == h + Strip(a[1..] + b, c);
      StripAppend(a[1..], b, c);
      assert h + (Strip(a[1..], c) + Strip(b, c)) == h + Strip(a[1..], c) + Strip(b, c);
    }
  }

  predicate NoUpper(s: string) {
    forall i :: 0 <= i < |s| ==> !IsAsciiUpper(s[i])
  }

  /** A converted name never contains an upper-case ASCII letter. */
  lemma {:induction false} LowerUnderscoreHasNoUpper(s: string)
    ensures NoUpper(LowerUnderscore(s))
    decreases |s|
  {
    if s != [] {
      LowerUnderscoreHasNoUpper(s[..|s| - 1]);
    }
  }

  /** A name without upper-case letters converts to itself. */
  lemma {:induction false} LowerUnderscoreFixesLower(s: string)
    requires NoUpper(s)
    ensures LowerUnderscore(s) == s
    decreases |s|
  {
    if s != [] {
      LowerUnderscoreFixesLower(s[..|s| - 1]);
      assert s == s[..|s| - 1] + [s[|s| - 1]];
    }
  }

  /** Converting twice is converting once. */
  lemma LowerUnderscoreIdempotent(s: string)
    ensures LowerUnderscore(LowerUnderscore(s)) == LowerUnderscore(s)
  {
    LowerUnderscoreHasNoUpper(s);
    LowerUnderscoreFixesLower(LowerUnderscore(s));
  }

  /**
   * The only changes are the inserted separators and the case: removing
   * every '_' from the result gives the lower-cased input without its '_'.
   */
  lemma {:induction false} LowerUnderscoreOnlyInsertsSeparators(s: string)
    ensures Strip(LowerUnderscore(s), '_') == LowerAscii(Strip(s, '_'))
    decreases |s|
  {
    if s != [] {
      var init, last := s[..|s| - 1], s[|s| - 1];
      var p := Piece(s, |s| - 1);
      assert s == init + [last];
      calc {
        Strip(LowerUnderscore(s), '_');
        Strip(LowerUnderscore(init) + p, '_');
        { StripAppend(LowerUnderscore(init), p, '_'); }
        Strip(LowerUnderscore(init), '_') + Strip(p, '_');
        { LowerUnderscoreOnlyInsertsSeparators(init); PieceStrip(s, |s| - 1); }
        LowerAscii(Strip(init, '_')) + LowerAscii(Strip([last], '_'));
        { LowerAsciiAppend(Strip(init, '_'), Strip([last], '_')); }
        LowerAscii(Strip(init, '_') + Strip([last], '_'));
        { StripAppend(init, [last], '_'); }
        LowerAscii(Strip(s, '_'));
      }
    }
  }

  lemma PieceStrip(s: string, i: nat)
    requires i < |s|
    ensures Strip(Piece(s, i), '_') == LowerAscii(Strip([s[i]], '_'))
  {
    var c := s[i];
    if IsAsciiUpper(c) && i > 0 {
      assert Piece(s, i) == ['_', ToAsciiLower(c)];
      assert Strip(['_', ToAsciiLower(c)], '_') == Strip([ToAsciiLower(c)], '_');
    }
  }

  lemma {:induction false} LowerAsciiAppend(a: string, b: string)
    ensures LowerAscii(a + b) == LowerAscii(a) + LowerAscii(b)
  {
    assert |LowerAscii(a + b)| == |LowerAscii(a) + LowerAscii(b)|;
    forall i | 0 <= i < |a + b| ensures LowerAscii(a + b)[i] == (LowerAscii(a) + LowerAscii(b))[i] {
      if i < |a| {
        assert (a + b)[i] == a[i];
      } else {
        assert (a + b)[i] == b[i - |a|];
      }
    }
  }

  // ---- the names the library derives

  /** DbCollection/DbSet.tableizeClassName: the model's simple class name
    * converted from UpperCamel. */
  function TableName(simpleClassName: string): (r: string)
    ensures NoUpper(r)
    ensures NoUpper(simpleClassName) ==> r == simpleClassName
  {
    LowerUnderscoreHasNoUpper(simpleClassName);
    LowerUnderscoreKeepsLower(simpleClassName);
    LowerUnderscore(simpleClassName)
  }

  lemma LowerUnderscoreKeepsLower(s: string)
    ensures NoUpper(s) ==> LowerUnderscore(s) == s
  {
    if NoUpper(s) {
      LowerUnderscoreFixesLower(s);
    }
  }

  /** DbColumnMap: a non-empty @DbColumn name is used as it is; an empty one
    * (the annotation's default) is replaced by the converted field name. */
  function ColumnName(annotationName: string, fieldName: string): (r: string)
    ensures |annotationName| > 0 ==> r == annotationName
    ensures annotationName == "" ==> r == LowerUnderscore(fieldName)
  {
    if |annotationName| > 0 then annotationName else LowerUnderscore(fieldName)
  }

  /**
   * DbBelongsToMeta as written: the name() of a @DbColumn on the slot is
   * used as it is, even the empty default; only a slot without the
   * annotation gets the converted field name plus "_id".
   */
  function BelongsToColumnNameAsWritten(annotation: Option<string>, fieldName: string): (r: string)
    ensures annotation.Some? ==> r == annotation.value
    ensures annotation.None? ==> r == LowerUnderscore(fieldName) + "_id"
  {
    match annotation
    case Some(name) => name
    case None => LowerUnderscore(fieldName) + "_id"
  }

  /** The as-written rule names the column "" for a bare @DbColumn(). */
  lemma BelongsToEmptyAnnotationGivesEmptyName()
    ensures BelongsToColumnNameAsWritten(Some(""), "author") == ""
  {
  }

  /**
   * DbBelongsToMeta with the empty annotation name treated the way
   * DbColumnMap treats it: only a non-empty name overrides the derived one.
   */
  function BelongsToColumnName(annotation: Option<string>, fieldName: string): (r: string)
    ensures annotation.Some? && |annotation.value| > 0 ==> r == annotation.value
    ensures (annotation.None? || annotation.value == "") ==> r == LowerUnderscore(fieldName) + "_id"
  {
    if annotation.Some? && |annotation.value| > 0 then annotation.value
    else LowerUnderscore(fieldName) + "_id"
  }

  /** Under the corrected rule every belongs-to column has a non-empty name,
    * and it agrees with the as-written rule whenever the annotation names
    * a column. */
  lemma BelongsToColumnNameNonEmpty(annotation: Option<string>, fieldName: string)
    ensures |BelongsToColumnName(annotation, fieldName)| > 0
    ensures (annotation.None? || annotation.value != "") ==>
              BelongsToColumnName(annotation, fieldName) == BelongsToColumnNameAsWritten(annotation, fieldName)
  {
  }

  /**
   * DbHasManyMeta: a @DbForeignKey value is used as it is; otherwise the
   * key is the declaring (owner) class's simple name converted from
   * UpperCamel plus "_id". The field's own name plays no part.
   */
  function HasManyForeignKey(annotation: Option<string>, declaringClassName: string): (r: string)
    ensures annotation.Some? ==> r == annotation.value
    ensures annotation.None? ==> r == LowerUnderscore(declaringClassName) + "_id"
  {
    match annotation
    case Some(key) => key
    case None => LowerUnderscore(declaringClassName) + "_id"
  }

  /** Appending a part without capitals appends it unchanged. */
  lemma {:induction false} LowerUnderscoreAppendLower(a: string, b: string)
    requires NoUpper(b)
    ensures LowerUnderscore(a + b) == LowerUnderscore(a) + b
    decreases |b|
  {
    if b == [] {
      assert a + b == a;
    } else {
      var b' := b[..|b| - 1];
      assert a + b == (a + b') + [b[|b| - 1]];
      assert (a + b)[..|a + b| - 1] == a + b';
      LowerUnderscoreAppendLower(a, b');
      assert b == b' + [b[|b| - 1]];
    }
  }

  /** An upper-case letter after a non-empty prefix opens a new word. */
  lemma LowerUnderscoreAppendUpper(a: string, c: char)
    requires a != [] && IsAsciiUpper(c)
    ensures LowerUnderscore(a + [c]) == LowerUnderscore(a) + ['_', ToAsciiLower(c)]
  {
    assert (a + [c])[..|a + [c]| - 1] == a;
  }

  /** The table and default foreign-key names of the fixture's Author model. */
  lemma AuthorNames()
    ensures TableName("Author") == "author"
    ensures HasManyForeignKey(None, "Author") == "author_id"
    ensures BelongsToColumnName(None, "author") == "author_id"
  {
    assert LowerUnderscore("A") == "a";
    assert "Author" == "A" + "uthor";
    assert NoUpper("uthor");
    LowerUnderscoreAppendLower("A", "uthor");
    assert LowerUnderscore("Author") == "a" + "uthor" == "author";
    assert TableName("Author") == "author";
    assert NoUpper("author");
    LowerUnderscoreFixesLower("author");
  }

  /** The default column name of DbModel's createdAt field. */
  lemma CreatedAtColumnName()
    ensures ColumnName("", "createdAt") == "created_at"
  {
    assert NoUpper("created");
    LowerUnderscoreFixesLower("created");
    assert "createdA" == "created" + ['A'];
    LowerUnderscoreAppendUpper("created", 'A');
    assert "createdAt" == "createdA" + "t";
    assert NoUpper("t");
    LowerUnderscoreAppendLower("createdA", "t");
  }
}
