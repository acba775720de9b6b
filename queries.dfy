// The query package: the parsing Criterion of the Lib copy (a column token
// with an optional operator suffix), OrderBy, and the fluent Query of the
// TinySyncLib copy with the three strings it compiles to.

module Queries {
  import opened Common
  import opened Values

  // ---- Guava Splitter options

  /** trimResults() */
  function TrimAll(ps: seq<string>): (r: seq<string>)
    ensures |r| == |ps| && forall k :: 0 <= k < |ps| ==> r[k] == Trim(ps[k])
  {
    seq(|ps|, k requires 0 <= k < |ps| => Trim(ps[k]))
  }

  /** omitEmptyStrings() */
  function DropEmpty(ps: seq<string>): (r: seq<string>)
    ensures forall k :: 0 <= k < |r| ==> r[k] != "" && r[k] in ps
    ensures forall k :: 0 <= k < |ps| && ps[k] != "" ==> ps[k] in r
  {
    if ps == [] then []
    else if ps[0] == "" then DropEmpty(ps[1..])
    else [ps[0]] + DropEmpty(ps[1..])
  }

  lemma TrimAllAppend(a: seq<string>, b: seq<string>)
    ensures TrimAll(a + b) == TrimAll(a) + TrimAll(b)
  {
    assert forall k :: 0 <= k < |b| ==> (a + b)[|a| + k] == b[k];
  }

  lemma {:induction false} DropEmptyAppend(a: seq<string>, b: seq<string>)
    ensures DropEmpty(a + b) == DropEmpty(a) + DropEmpty(b)
  {
    if a != [] {
      assert (a + b)[1..] == a[1..] + b;
      DropEmptyAppend(a[1..], b);
    } else {
      assert a + b == b;
    }
  }

  // ---- Criterion (Lib)

  predicate IsCriterionSeparator(c: char) { c == '.' || c == ' ' }

  /** The trimmed, non-empty pieces of a criterion token. */
  function Pieces(column: string): seq<string> {
    DropEmpty(TrimAll(Split(column, IsCriterionSeparator)))
  }

  /** A separator between two parts of a token splits its pieces. */
  lemma PiecesAtSeparator(a: string, c: char, b: string)
    requires IsCriterionSeparator(c)
    ensures Pieces(a + [c] + b) == Pieces(a) + Pieces(b)
  {
    SplitAtSeparator(a, c, b, IsCriterionSeparator);
    TrimAllAppend(Split(a, IsCriterionSeparator), Split(b, IsCriterionSeparator));
    DropEmptyAppend(TrimAll(Split(a, IsCriterionSeparator)), TrimAll(Split(b, IsCriterionSeparator)));
  }

  /** A word: non-empty text with no separator and no whitespace. */
  predicate IsWord(w: string) {
    w != [] && forall i :: 0 <= i < |w| ==> !IsCriterionSeparator(w[i]) && !IsWhitespace(w[i])
  }

  lemma PiecesOfWord(w: string)
    requires IsWord(w)
    ensures Pieces(w) == [w]
  {
    CleanOfWord(w);
    SplitClean(w, IsCriterionSeparator);
    TrimOfClean(w);
    PiecesOfSingle(w);
  }

  lemma CleanOfWord(w: string)
    requires IsWord(w)
    ensures forall i :: 0 <= i < |w| ==> !IsCriterionSeparator(w[i])
    ensures forall i :: 0 <= i < |w| ==> !IsWhitespace(w[i])
  {
  }

  lemma PiecesOfSingle(w: string)
    requires w != [] && Trim(w) == w
    ensures DropEmpty(TrimAll([w])) == [w]
  {
    var t := TrimAll([w]);
    assert t == [w];
    assert DropEmpty([w]) == [w] by { assert [w][1..] == []; }
  }

  lemma PiecesOfEmpty()
    ensures Pieces([]) == []
  {
    assert Split([], IsCriterionSeparator) == [""];
    assert TrimAll([""]) == [""];
    assert DropEmpty([""]) == [] by { assert [""][1..] == []; }
  }

  /** Any run of dots and spaces is one separator: `f` and `op` joined by
    * it are exactly the two pieces. */
  lemma PiecesAroundSeparators(f: string, seps: string, op: string)
    requires IsWord(f) && IsWord(op) && seps != []
    requires forall i :: 0 <= i < |seps| ==> IsCriterionSeparator(seps[i])
    ensures Pieces(f + seps + op) == [f, op]
  {
    var x := seps[1..] + op;
    SeparatorsThenWord(seps[1..], op);
    FirstSeparator(f, seps, op);
    WordThenSeparator(f, seps[0], x);
  }

  lemma FirstSeparator(f: string, seps: string, op: string)
    requires seps != []
    ensures f + seps + op == f + [seps[0]] + (seps[1..] + op)
  {
    assert seps == [seps[0]] + seps[1..];
  }

  lemma WordThenSeparator(f: string, c: char, x: string)
    requires IsWord(f) && IsCriterionSeparator(c)
    ensures Pieces(f + [c] + x) == [f] + Pieces(x)
  {
    PiecesAtSeparator(f, c, x);
    PiecesOfWord(f);
  }

  lemma {:induction false} SeparatorsThenWord(seps: string, op: string)
    requires IsWord(op)
    requires forall i :: 0 <= i < |seps| ==> IsCriterionSeparator(seps[i])
    ensures Pieces(seps + op) == [op]
    decreases |seps|
  {
    if seps == [] {
      assert seps + op == op;
      PiecesOfWord(op);
    } else {
      ConsAppend(seps, op);
      SeparatorsThenWord(seps[1..], op);
      LeadingSeparator(seps[0], seps[1..] + op);
    }
  }

  lemma ConsAppend(s: string, t: string)
    requires s != []
    ensures s + t == [s[0]] + (s[1..] + t)
  {
    assert s == [s[0]] + s[1..];
  }

  /** A separator in front of a token adds no piece. */
  lemma LeadingSeparator(c: char, x: string)
    requires IsCriterionSeparator(c)
    ensures Pieces([c] + x) == Pieces(x)
  {
    var e: string := [];
    EmptyFront(e, c, x);
    PiecesAtSeparator(e, c, x);
    PiecesOfEmpty();
  }

  lemma EmptyFront(e: string, c: char, x: string)
    requires e == []
    ensures e + [c] + x == [c] + x
  {
    assert e + [c] == [c];
  }

  /** The static operator table: named operators and their SQL symbols. */
  const OperatorNames: map<string, string> :=
    map["eq" := "=", "neq" := "<>", "gt" := ">", "gte" := ">=", "lt" := "<", "lte" := "<="]

  const OperatorSymbols: set<string> := {"=", "<>", ">", ">=", "<", "<="}

  const TooManyPieces :=
    "You have too many periods or spaces in your criterion column. There should only be one at most!"

  /** A parsed criterion: column, SQL operator, and the value compared against. */
  datatype Criterion = Criterion(column: string, operator: string, value: Value)

  /**
   * The Criterion constructor. The first piece is read before the piece
   * count is checked, so a token with no pieces fails on that read; more
   * than two pieces, or a second piece that is neither an operator name
   * nor a symbol, is an InvalidCriterionException.
   */
  function ParseCriterion(column: string, value: Value): (r: Result<Criterion>)
    ensures Pieces(column) == [] ==> r == Err(IndexOutOfBounds(0))
    ensures |Pieces(column)| > 2 ==> r == Err(InvalidCriterion(TooManyPieces))
    ensures r.Ok? <==>
              |Pieces(column)| == 1 ||
              (|Pieces(column)| == 2 && (Pieces(column)[1] in OperatorNames || Pieces(column)[1] in OperatorSymbols))
    ensures r.Ok? ==> r.value.column == Pieces(column)[0] && r.value.value == value
    ensures r.Ok? ==> r.value.operator in OperatorSymbols
    ensures r.Ok? && |Pieces(column)| == 1 ==> r.value.operator == "="
    ensures r.Ok? && |Pieces(column)| == 2 ==>
              r.value.operator == (if Pieces(column)[1] in OperatorNames then OperatorNames[Pieces(column)[1]]
                                   else Pieces(column)[1])
  {
    var comps := Pieces(column);
    if comps == [] then Err(IndexOutOfBounds(0))
    else if |comps| > 2 then Err(InvalidCriterion(TooManyPieces))
    else if |comps| == 2 then
      var op := comps[1];
      if op in OperatorNames then Ok(Criterion(comps[0], OperatorNames[op], value))
      else if op in OperatorSymbols then Ok(Criterion(comps[0], op, value))
      else Err(InvalidCriterion("Invalid operator " + op))
    else Ok(Criterion(comps[0], "=", value))
  }

  /** The operator table's values are exactly the symbols, so a named
    * operator and its symbol parse alike. */
  lemma NamedOperatorsAreSymbols()
    ensures OperatorNames.Values == OperatorSymbols
  {
    assert OperatorNames["eq"] == "=" && OperatorNames["neq"] == "<>" && OperatorNames["gt"] == ">";
    assert OperatorNames["gte"] == ">=" && OperatorNames["lt"] == "<" && OperatorNames["lte"] == "<=";
  }

  /** `age.gte`, `age  gte` and `age..gte` all give (age, >=): any run of
    * dots and spaces separates the column from its operator. */
  lemma SeparatorsAreInterchangeable(f: string, seps: string, op: string, value: Value)
    requires IsWord(f) && IsWord(op) && seps != []
    requires forall i :: 0 <= i < |seps| ==> IsCriterionSeparator(seps[i])
    requires op in OperatorNames
    ensures ParseCriterion(f + seps + op, value) == Ok(Criterion(f, OperatorNames[op], value))
  {
    PiecesAroundSeparators(f, seps, op);
  }

  /** A bare column compares for equality. */
  lemma BareColumnIsEquality(f: string, value: Value)
    requires IsWord(f)
    ensures ParseCriterion(f, value) == Ok(Criterion(f, "=", value))
  {
    PiecesOfWord(f);
  }

  /** An operator suffix that is not in the table, such as `bogus` or
    * `GTE`, is rejected. */
  lemma UnknownOperatorIsRejected(f: string, op: string, value: Value)
    requires IsWord(f) && IsWord(op)
    requires op !in OperatorNames && op !in OperatorSymbols
    ensures ParseCriterion(f + "." + op, value) == Err(InvalidCriterion("Invalid operator " + op))
  {
    PiecesAroundSeparators(f, ".", op);
  }

  lemma CaseMismatchedOperatorIsRejected(value: Value)
    ensures ParseCriterion("age.GTE", value).Err?
  {
    var w := "GTE";
    assert IsWord(w) by {
      assert forall i :: 0 <= i < |w| ==> w[i] in {'G', 'T', 'E'};
    }
    assert IsWord("age") by {
      assert forall i :: 0 <= i < 3 ==> "age"[i] in {'a', 'g', 'e'};
    }
    assert "age.GTE" == "age" + "." + w;
    UnknownOperatorIsRejected("age", w, value);
  }

  /** Three pieces are too many. */
  lemma ThreePiecesAreRejected(a: string, b: string, c: string, value: Value)
    requires IsWord(a) && IsWord(b) && IsWord(c)
    ensures ParseCriterion(a + "." + b + "." + c, value) == Err(InvalidCriterion(TooManyPieces))
  {
    DotJoin(a + "." + b, c);
    PiecesAtSeparator(a + "." + b, '.', c);
    PiecesAroundSeparators(a, ".", b);
    PiecesOfWord(c);
  }

  lemma DotJoin(a: string, b: string)
    ensures a + "." + b == a + ['.'] + b
  {
  }

  /** A token of dots and spaces only has no pieces. */
  lemma {:induction false} SeparatorsOnlyHaveNoPieces(seps: string)
    requires forall i :: 0 <= i < |seps| ==> IsCriterionSeparator(seps[i])
    ensures Pieces(seps) == []
    decreases |seps|
  {
    if seps == [] {
      PiecesOfEmpty();
    } else {
      ConsAppend(seps, []);
      assert seps[1..] + [] == seps[1..];
      SeparatorsOnlyHaveNoPieces(seps[1..]);
      LeadingSeparator(seps[0], seps[1..]);
    }
  }

  /** So such a token, the empty one included, fails on reading its first
    * piece. */
  lemma SeparatorsOnlyFail(seps: string, value: Value)
    requires forall i :: 0 <= i < |seps| ==> IsCriterionSeparator(seps[i])
    ensures ParseCriterion(seps, value) == Err(IndexOutOfBounds(0))
  {
    SeparatorsOnlyHaveNoPieces(seps);
  }

  // ---- OrderBy (TinySyncLib)

  const Asc := 1
  const Desc := -1

  datatype OrderBy = OrderBy(column: string, direction: int)

  /** getDirectionString: only a positive direction is ascending. */
  function DirectionString(o: OrderBy): (r: string)
    ensures r == "ASC" <==> o.direction > 0
    ensures r == "DESC" <==> o.direction <= 0
  {
    if o.direction > 0 then "ASC" else "DESC"
  }

  /** The two constants render as their names, and a zero direction is
    * descending, not ascending as DbCollection.orderBy's comment says. */
  lemma DirectionConstants(column: string)
    ensures DirectionString(OrderBy(column, Asc)) == "ASC"
    ensures DirectionString(OrderBy(column, Desc)) == "DESC"
    ensures DirectionString(OrderBy(column, 0)) == "DESC"
  {
  }

  // ---- Query (TinySyncLib)

  /** The TinySyncLib Criterion: a column and a value, always compared for
    * equality. */
  datatype Equality = Equality(column: string, value: Value)

  /** Object.toString() of a criterion value; calling it on null throws.
    * Ids print their hex text, enum constants their name, and instants
    * whatever the time library prints (`dateText`). */
  function ValueText(v: Value, dateText: DateTime -> string): (r: Result<string>)
    ensures r.Err? <==> v.Null?
    ensures r.Err? ==> r.error == NullPointer
    ensures v.Int? ==> r == Ok(IntToDecimal(v.i))
    ensures v.Str? ==> r == Ok(v.s)
  {
    match v
    case Null => Err(NullPointer)
    case Str(s) => Ok(s)
    case Int(i) => Ok(IntToDecimal(i))
    case Bool(b) => Ok(if b then "true" else "false")
    case Id(o) => Ok(o.hex)
    case Time(t) => Ok(dateText(t))
    case Sym(name) => Ok(name)
  }

  function Statements(criteria: seq<Equality>): (r: seq<string>)
    ensures |r| == |criteria|
    ensures forall i :: 0 <= i < |criteria| ==> r[i] == criteria[i].column + " = ?"
  {
    seq(|criteria|, i requires 0 <= i < |criteria| => criteria[i].column + " = ?")
  }

  /** getSelection */
  function SelectionText(criteria: seq<Equality>): string {
    Join(" AND ", Statements(criteria))
  }

  /** getSelectionArgs: one text per criterion, in order; a null value throws. */
  function SelectionArgs(criteria: seq<Equality>, dateText: DateTime -> string): (r: Result<seq<string>>)
    ensures r.Err? <==> exists i :: 0 <= i < |criteria| && criteria[i].value.Null?
    ensures r.Err? ==> r.error == NullPointer
    ensures r.Ok? ==> |r.value| == |criteria|
    ensures r.Ok? ==> forall i :: 0 <= i < |criteria| ==> Ok(r.value[i]) == ValueText(criteria[i].value, dateText)
  {
    if criteria == [] then Ok([])
    else
      match ValueText(criteria[0].value, dateText)
      case Err(e) => Err(e)
      case Ok(t) =>
        match SelectionArgs(criteria[1..], dateText)
        case Err(e) =>
          assert exists i :: 0 <= i < |criteria[1..]| && criteria[1..][i].value.Null?;
          var i :| 0 <= i < |criteria[1..]| && criteria[1..][i].value.Null?;
          assert criteria[i + 1].value.Null?;
          Err(e)
        case Ok(rest) => Ok([t] + rest)
  }

  function OrderByEntries(orderBys: seq<OrderBy>): (r: seq<string>)
    ensures |r| == |orderBys|
    ensures forall i :: 0 <= i < |orderBys| ==> r[i] == orderBys[i].column + " " + DirectionString(orderBys[i])
  {
    seq(|orderBys|, i requires 0 <= i < |orderBys| => orderBys[i].column + " " + DirectionString(orderBys[i]))
  }

  /** getOrderBy */
  function OrderByText(orderBys: seq<OrderBy>): string {
    Join(", ", OrderByEntries(orderBys))
  }

  /** Each `where` after the first extends the selection by " AND " and
    * one more placeholder test. */
  lemma SelectionGrows(criteria: seq<Equality>, c: Equality)
    requires criteria != []
    ensures SelectionText(criteria + [c]) == SelectionText(criteria) + " AND " + c.column + " = ?"
  {
    assert Statements(criteria + [c]) == Statements(criteria) + [c.column + " = ?"];
    JoinAppend(" AND ", Statements(criteria), c.column + " = ?");
  }

  /** Each ordering after the first extends the clause by ", " and one
    * more `column DIRECTION` entry. */
  lemma OrderingGrows(orderBys: seq<OrderBy>, o: OrderBy)
    requires orderBys != []
    ensures OrderByText(orderBys + [o]) == OrderByText(orderBys) + ", " + o.column + " " + DirectionString(o)
  {
    assert OrderByEntries(orderBys + [o]) == OrderByEntries(orderBys) + [o.column + " " + DirectionString(o)];
    JoinAppend(", ", OrderByEntries(orderBys), o.column + " " + DirectionString(o));
  }

  lemma {:induction false} JoinCount(sep: string, parts: seq<string>, c: char)
    requires c !in sep
    ensures CountChar(Join(sep, parts), c) == SumCounts(parts, c)
    decreases |parts|
  {
    if |parts| > 1 {
      JoinCount(sep, parts[1..], c);
      CountCharAppend(parts[0] + sep, Join(sep, parts[1..]), c);
      CountCharAppend(parts[0], sep, c);
      NoCount(sep, c);
    }
  }

  lemma {:induction false} NoCount(s: string, c: char)
    requires c !in s
    ensures CountChar(s, c) == 0
    decreases |s|
  {
    if s != [] {
      NoCount(s[1..], c);
    }
  }

  function SumCounts(parts: seq<string>, c: char): nat {
    if parts == [] then 0 else CountChar(parts[0], c) + SumCounts(parts[1..], c)
  }

  /** When no column name contains '?', the selection has exactly one
    * placeholder per selection argument. */
  lemma PlaceholdersMatchArguments(criteria: seq<Equality>, dateText: DateTime -> string)
    requires forall i :: 0 <= i < |criteria| ==> '?' !in criteria[i].column
    ensures CountChar(SelectionText(criteria), '?') == |criteria|
    ensures SelectionArgs(criteria, dateText).Ok? ==> CountChar(SelectionText(criteria), '?') == |SelectionArgs(criteria, dateText).value|
  {
    JoinCount(" AND ", Statements(criteria), '?');
    StatementCounts(criteria);
  }

  lemma {:induction false} StatementCounts(criteria: seq<Equality>)
    requires forall i :: 0 <= i < |criteria| ==> '?' !in criteria[i].column
    ensures SumCounts(Statements(criteria), '?') == |criteria|
    decreases |criteria|
  {
    if criteria != [] {
      var s := Statements(criteria);
      assert s[1..] == Statements(criteria[1..]);
      StatementCounts(criteria[1..]);
      CountCharAppend(criteria[0].column, " = ?", '?');
      NoCount(criteria[0].column, '?');
      assert CountChar(" = ?", '?') == 1;
    }
  }

  /** The query: criteria and orderings, appended in call order. The query's
    * collection and run() are Db.Collection.RunQuery. */
  class Query {
    var criteria: seq<Equality>
    var orderBys: seq<OrderBy>

    constructor ()
      ensures criteria == [] && orderBys == []
    {
      criteria, orderBys := [], [];
    }

    /** addCriterion: appends one criterion and returns the same query. */
    method AddCriterion(c: Equality) returns (q: Query)
      modifies this
      ensures q == this
      ensures criteria == old(criteria) + [c] && orderBys == old(orderBys)
    {
      criteria := criteria + [c];
      q := this;
    }

    method Where(column: string, value: Value) returns (q: Query)
      modifies this
      ensures q == this
      ensures criteria == old(criteria) + [Equality(column, value)] && orderBys == old(orderBys)
    {
      q := AddCriterion(Equality(column, value));
    }

    /** addOrderBy: appends one ordering and returns the same query. */
    method AddOrderBy(o: OrderBy) returns (q: Query)
      modifies this
      ensures q == this
      ensures orderBys == old(orderBys) + [o] && criteria == old(criteria)
    {
      orderBys := orderBys + [o];
      q := this;
    }

    method OrderByColumn(column: string, direction: int) returns (q: Query)
      modifies this
      ensures q == this
      ensures orderBys == old(orderBys) + [OrderBy(column, direction)] && criteria == old(criteria)
    {
      q := AddOrderBy(OrderBy(column, direction));
    }

    /** getSelection: one `column = ?` statement per criterion, filled in
      * by index, joined with " AND ". */
    method GetSelection() returns (selection: string)
      ensures selection == SelectionText(criteria)
    {
      var statements: seq<string> := [];
      var i := 0;
      while i < |criteria|
        invariant 0 <= i <= |criteria|
        invariant statements == Statements(criteria)[..i]
      {
        statements := statements + [criteria[i].column + " = ?"];
        i := i + 1;
      }
      assert statements == Statements(criteria);
      selection := Join(" AND ", statements);
    }

    /** getSelectionArgs: each criterion value's toString(), by index; the
      * first null value throws. */
    method GetSelectionArgs(dateText: DateTime -> string) returns (r: Result<seq<string>>)
      ensures r == SelectionArgs(criteria, dateText)
    {
      var args: seq<string> := [];
      var i := 0;
      while i < |criteria|
        invariant 0 <= i <= |criteria| && |args| == i
        invariant forall j :: 0 <= j < i ==> Ok(args[j]) == ValueText(criteria[j].value, dateText)
      {
        var t := ValueText(criteria[i].value, dateText);
        if t.Err? {
          return Err(t.error);
        }
        args := args + [t.value];
        i := i + 1;
      }
      ArgsAreSelectionArgs(criteria, dateText, args);
      r := Ok(args);
    }

    /** getOrderBy: one `column DIRECTION` entry per ordering, by index,
      * joined with ", ". */
    method GetOrderBy() returns (ordering: string)
      ensures ordering == OrderByText(orderBys)
    {
      var statements: seq<string> := [];
      var i := 0;
      while i < |orderBys|
        invariant 0 <= i <= |orderBys|
        invariant statements == OrderByEntries(orderBys)[..i]
      {
        statements := statements + [orderBys[i].column + " " + DirectionString(orderBys[i])];
        i := i + 1;
      }
      assert statements == OrderByEntries(orderBys);
      ordering := Join(", ", statements);
    }
  }

  /** Texts that render every criterion value are the selection arguments. */
  lemma ArgsAreSelectionArgs(criteria: seq<Equality>, dateText: DateTime -> string, args: seq<string>)
    requires |args| == |criteria|
    requires forall j :: 0 <= j < |criteria| ==> Ok(args[j]) == ValueText(criteria[j].value, dateText)
    ensures SelectionArgs(criteria, dateText) == Ok(args)
  {
    var r := SelectionArgs(criteria, dateText);
    assert forall j :: 0 <= j < |criteria| ==> !criteria[j].value.Null?;
    assert r.value == args;
  }

  /** A fresh query compiles to empty strings and no arguments; one
    * `where` renders as a single placeholder test. */
  lemma QueryTexts(column: string, v: Value, dateText: DateTime -> string)
    requires v != Null
    ensures SelectionText([]) == "" && OrderByText([]) == "" && SelectionArgs([], dateText) == Ok([])
    ensures SelectionText([Equality(column, v)]) == column + " = ?"
    ensures SelectionArgs([Equality(column, v)], dateText) == Ok([ValueText(v, dateText).value])
  {
    assert Statements([Equality(column, v)]) == [column + " = ?"];
    var cs := [Equality(column, v)];
    assert cs[1..] == [];
    assert SelectionArgs(cs[1..], dateText) == Ok([]);
    var t := ValueText(v, dateText).value;
    assert [t] + [] == [t];
  }

  /** `where("age", 5)` asks for the text "5". */
  lemma WhereAgeFive(dateText: DateTime -> string)
    ensures SelectionText([Equality("age", Int(5))]) == "age = ?"
    ensures SelectionArgs([Equality("age", Int(5))], dateText) == Ok(["5"])
  {
    QueryTexts("age", Int(5), dateText);
    assert IntToDecimal(5) == "5";
  }
}
