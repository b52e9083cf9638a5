/** `f"SELECT {COLS} FROM {x}"` over a constant and a parameter: what it folds to, and that it is what it takes. */
module FoldExample {
  import opened Wrappers
  import opened FoldSyntax
  import opened FoldText
  import opened Fold
  import opened FoldMeaning
  import opened FoldComplete
  import opened FoldSemantics
  import opened FoldTidy
  import opened FoldReads
  import opened FoldExact
  import opened Sequences

  const LAST := Hole(Name(5, "x"), NoParts)
  const MIDDLE := Hole(Name(4, "COLS"), Lit(" FROM ", LAST))
  const TEMPLATE := Joined(3, Lit("SELECT ", MIDDLE))

  const ASKER := Func(1, "query", ["x"], [])
  const QUERY := Scope("m", Some(ASKER))

  /** `COLS = cols` and `query(table)` in module m. */
  function Querying(cols: string, table: string): Program {
    Program(map["m" := [Assign("COLS", Const(1, cols))]],
            map["query" := [Site(Scope("m", None), {1}, {}, [Const(2, table)], [])]], {1, 2, 3, 4, 5}, (mod, name) => 0)
  }

  lemma QueryingIsKnown(cols: string, table: string)
    ensures var p := Querying(cols, table); Sourced(p) && KnownScope(QUERY, p.nodes) && Known(TEMPLATE, p.nodes)
    ensures var p := Querying(cols, table); Known(Name(4, "COLS"), p.nodes) && Known(Name(5, "x"), p.nodes)
    ensures BindsOf(Querying(cols, table), "m") == [Assign("COLS", Const(1, cols))]
    ensures Kept([Assign("COLS", Const(1, cols))], "COLS") == Some(0)
    ensures Kept([Assign("COLS", Const(1, cols))], "x").None?
  {
    assert [Assign("COLS", Const(1, cols))][..0] == [];
  }

  lemma OnePair(a: string, b: string)
    ensures Crossed(These([a]), These([b])) == These([a + b])
  {
  }

  lemma ConstantIsMeant(cols: string, table: string)
    requires Sourced(Querying(cols, table)) && KnownScope(QUERY, Querying(cols, table).nodes)
    ensures Meant(Querying(cols, table), QUERY, Name(4, "COLS"), {3}, map[]) == These([cols])
    ensures MeantConstant(Querying(cols, table), "m", "COLS", {3, 4}, map[]) == These([cols])
    ensures MeantParam(Querying(cols, table), ASKER, "COLS", {3, 4}, map[]) == Refused
  {
    QueryingIsKnown(cols, table);
    var p := Querying(cols, table);
    assert MeantConstant(p, "m", "COLS", {3, 4}, map[]) == These([cols]);
    assert {3} + {4} == {3, 4};
    assert MeantParam(p, ASKER, "COLS", {3, 4}, map[]) == Refused;
    assert MeantName(p, QUERY, "COLS", {3, 4}, map[]) == These([cols]);
  }

  lemma CallIsMeant(cols: string, table: string)
    requires Sourced(Querying(cols, table))
    ensures var p := Querying(cols, table);
            && CallsTo(p, "query") != []
            && MeantCalls(p, ASKER, "x", CallsTo(p, "query"), {3, 5}, map[]) == These([table])
  {
    var p := Querying(cols, table);
    var calls := CallsTo(p, "query");
    hide Sourced;
    assert ArgOf(ASKER, calls[0], "x") == Some(Const(2, table));
    assert calls[1..] == [] && [table] + [] == [table];
    assert MeantCalls(p, ASKER, "x", calls[1..], {3, 5}, map[]) == These([]);
  }

  lemma OneFirst(text: string)
    ensures Firsts([text]) == [text]
  {
    assert [text][..0] == [] && [] + [text] == [text];
  }

  lemma ParameterIsMeant(cols: string, table: string)
    requires Sourced(Querying(cols, table)) && KnownScope(QUERY, Querying(cols, table).nodes)
    ensures Meant(Querying(cols, table), QUERY, Name(5, "x"), {3}, map[]) == These([table])
    ensures MeantParam(Querying(cols, table), ASKER, "x", {3, 5}, map[]) == These([table])
  {
    CallIsMeant(cols, table);
    OneFirst(table);
    hide Sourced, KnownScope, MeantCalls, Firsts, Querying;
    var p := Querying(cols, table);
    assert {3} + {5} == {3, 5};
    assert MeantParam(p, ASKER, "x", {3, 5}, map[]) == These([table]);
    hide MeantParam;
    assert MeantName(p, QUERY, "x", {3, 5}, map[]) == These([table]);
  }

  /** `f"SELECT {COLS} FROM {x}"` folds to the one text it is, for every constant and every argument. */
  lemma TemplateFolds(cols: string, table: string)
    ensures var p := Querying(cols, table);
            && Sourced(p) && KnownScope(QUERY, p.nodes) && Known(TEMPLATE, p.nodes)
            && Fold.Fold(p, QUERY, TEMPLATE, {}, map[]).0 == Some(["SELECT " + cols + " FROM " + table])
  {
    QueryingIsKnown(cols, table);
    ConstantIsMeant(cols, table);
    ParameterIsMeant(cols, table);
    var p := Querying(cols, table);
    hide Sourced, KnownScope, Meant, Crossed;
    assert {} + {3} == {3} && table + "" == table && TEMPLATE.parts == Lit("SELECT ", MIDDLE);
    OnePair(table, "");
    assert MeantParts(p, QUERY, LAST, {3}, map[]) == These([table]);
    OnePair(" FROM ", table);
    OnePair(cols, " FROM " + table);
    assert MeantParts(p, QUERY, Lit(" FROM ", LAST), {3}, map[]) == These([" FROM " + table]);
    assert MeantParts(p, QUERY, MIDDLE, {3}, map[]) == These([cols + (" FROM " + table)]);
    OnePair("SELECT ", cols + (" FROM " + table));
    TemplateIsJoined(p);
    Regroup("SELECT ", cols, " FROM " + table);
    Regroup("SELECT " + cols, " FROM ", table);
    FoldIsItsMeaning(p, QUERY, TEMPLATE);
  }

  lemma TemplateIsJoined(p: Program)
    requires Sourced(p) && KnownScope(QUERY, p.nodes) && Known(TEMPLATE, p.nodes)
    ensures Meant(p, QUERY, TEMPLATE, {}, map[]) == UpTo32(MeantParts(p, QUERY, TEMPLATE.parts, {3}, map[]))
  {
    assert {} + {3} == {3};
  }

  // ----- it takes that text

  lemma PartsFold(cols: string, table: string)
    requires Sourced(Querying(cols, table)) && KnownScope(QUERY, Querying(cols, table).nodes)
    ensures var p := Querying(cols, table);
            && Fold.Fold(p, QUERY, Name(4, "COLS"), {3}, map[]) == (Some([cols]), map[])
            && Fold.Fold(p, QUERY, Name(5, "x"), {3}, map[]) == (Some([table]), map[])
            && ParamValues(p, ASKER, "COLS", {3, 4}, map[]) == (None, map[])
            && ParamValues(p, ASKER, "x", {3, 5}, map[]) == (Some([table]), map[])
            && FoldGlobal(p, "m", "COLS", {3, 4}, map[]) == (Some([cols]), map[])
  {
    QueryingIsKnown(cols, table);
    hide *;
    var p, f := Querying(cols, table), ASKER;
    ConstantIsMeant(cols, table);
    ParameterIsMeant(cols, table);
    Answered(p, Name(4, "COLS"), cols);
    Answered(p, Name(5, "x"), table);
    ParamAnswers(p, f, "COLS", {3, 4}, map[]);
    ParamAnswers(p, f, "x", {3, 5}, map[]);
    ConstantAnswers(p, "m", "COLS", {3, 4}, map[]);
    AnswersAre(ParamValues(p, f, "COLS", {3, 4}, map[]), Refused);
    AnswersAre(ParamValues(p, f, "x", {3, 5}, map[]), These([table]));
    AnswersAre(FoldGlobal(p, "m", "COLS", {3, 4}, map[]), These([cols]));
  }

  lemma AnswersAre(r: Folded, m: Meaning)
    requires Answers(r, m, map[]) && !m.Tangled?
    ensures r == (if m.These? then Some(m.values) else None, map[])
  {
  }

  lemma Answered(p: Program, e: Expr, text: string)
    requires Sourced(p) && KnownScope(QUERY, p.nodes) && Known(e, p.nodes)
    requires Meant(p, QUERY, e, {3}, map[]) == These([text])
    ensures Fold.Fold(p, QUERY, e, {3}, map[]) == (Some([text]), map[])
  {
    FoldAnswers(p, QUERY, e, {3}, map[]);
    AnswersAre(Fold.Fold(p, QUERY, e, {3}, map[]), These([text]));
  }

  lemma NamesAreTidy(cols: string, table: string)
    requires Sourced(Querying(cols, table)) && KnownScope(QUERY, Querying(cols, table).nodes)
    ensures var p := Querying(cols, table);
            && Tidy(p, QUERY, {}, {}, Name(4, "COLS"), {3}, map[]) && Tidy(p, QUERY, {}, {}, Name(5, "x"), {3}, map[])
  {
    var p, f := Querying(cols, table), ASKER;
    QueryingIsKnown(cols, table);
    PartsFold(cols, table);
    hide Sourced, KnownScope, Fold.Fold, ParamValues;
    var calls := CallsTo(p, "query");
    assert {3} + {4} == {3, 4} && {3} + {5} == {3, 5};
    assert ArgOf(f, calls[0], "x") == Some(Const(2, table)) && calls[1..] == [];
    assert TidyCalls(p, f, "x", calls[1..], {3, 5}, map[]) && TidyCalls(p, f, "x", calls, {3, 5}, map[]);
    assert Reaches(calls[0], f) && !Entry(p, f);
    assert TidyName(p, QUERY, {}, {}, "x", {3, 5}, map[]);
    assert TidyGlobal(p, "m", "COLS", {3, 4}, map[]);
    assert TidyName(p, QUERY, {}, {}, "COLS", {3, 4}, map[]);
  }

  const COLS_READ: Reads := Some(Uses({}, {GlobalKey("m", "COLS")}))
  const X_READ: Reads := Some(Uses({}, {LocalKey(0, "x"), CallKey(0)}))

  lemma ReadTogether()
    ensures Either(NOTHING, NOTHING) == NOTHING && Both(NOTHING, NOTHING) == NOTHING
    ensures With(GlobalKey("m", "COLS"), false, NOTHING) == COLS_READ
    ensures With(LocalKey(0, "x"), false, With(CallKey(0), false, NOTHING)) == X_READ
    ensures Both(X_READ, NOTHING) == X_READ && Both(COLS_READ, X_READ).Some?
  {
    var none: set<Key> := {};
    assert none + none == none && none + {GlobalKey("m", "COLS")} == {GlobalKey("m", "COLS")};
    assert none + {CallKey(0)} + {LocalKey(0, "x")} == {LocalKey(0, "x"), CallKey(0)};
    assert {LocalKey(0, "x"), CallKey(0)} + none == {LocalKey(0, "x"), CallKey(0)};
  }

  lemma ConstantIsRead(cols: string, table: string)
    requires Sourced(Querying(cols, table)) && KnownScope(QUERY, Querying(cols, table).nodes)
    ensures ReadsOf(Querying(cols, table), QUERY, 0, Name(4, "COLS"), {3}, map[]) == COLS_READ
  {
    var p := Querying(cols, table);
    QueryingIsKnown(cols, table);
    PartsFold(cols, table);
    ReadTogether();
    hide Sourced, KnownScope, Fold.Fold, ParamValues, FoldGlobal, Either, Both, With;
    assert {3} + {4} == {3, 4} && !SeveralValues([cols]);
    assert ReadsOfGlobal(p, "m", "COLS", {3, 4}, map[]) == With(GlobalKey("m", "COLS"), false, NOTHING);
    assert ReadsOfName(p, QUERY, 0, "COLS", {3, 4}, map[]) == COLS_READ;
  }

  lemma ParameterIsRead(cols: string, table: string)
    requires Sourced(Querying(cols, table)) && KnownScope(QUERY, Querying(cols, table).nodes)
    ensures ReadsOf(Querying(cols, table), QUERY, 0, Name(5, "x"), {3}, map[]) == X_READ
  {
    var p, f := Querying(cols, table), ASKER;
    QueryingIsKnown(cols, table);
    PartsFold(cols, table);
    ReadTogether();
    hide Sourced, KnownScope, Known, Fold.Fold, ParamValues, FoldGlobal, Either, Both, With, AddNew;
    var calls := CallsTo(p, "query");
    assert {3} + {5} == {3, 5} && !SeveralValues([table]);
    assert ArgOf(f, calls[0], "x") == Some(Const(2, table)) && calls[1..] == [] && Reaches(calls[0], f);
    assert ReadsOfCalls(p, f, 1, "x", calls[1..], {3, 5}, map[]) == NOTHING;
    assert ReadsOf(p, Scope("m", None), 1, Const(2, table), {3, 5}, map[]) == NOTHING;
    assert ReadsOfCalls(p, f, 1, "x", calls, {3, 5}, map[]) == NOTHING;
    assert FoldName(p, QUERY, "x", {3, 5}, map[]).0 == Some([table]);
    assert ReadsOfName(p, QUERY, 0, "x", {3, 5}, map[])
        == With(LocalKey(0, "x"), false, With(CallKey(0), false, NOTHING));
  }

  lemma TemplateIsTidy(cols: string, table: string)
    requires Sourced(Querying(cols, table)) && KnownScope(QUERY, Querying(cols, table).nodes)
    requires Known(TEMPLATE, Querying(cols, table).nodes)
    ensures Tidy(Querying(cols, table), QUERY, {}, {}, TEMPLATE, {}, map[])
  {
    var p := Querying(cols, table);
    PartsFold(cols, table);
    NamesAreTidy(cols, table);
    hide Sourced, KnownScope, Fold.Fold, Product, TidyName;
    assert {} + {3} == {3} && TEMPLATE.parts == Lit("SELECT ", MIDDLE);
    var one := Product([""], ["SELECT "]);
    var two := Product(one, [cols]);
    var three := Product(two, [" FROM "]);
    assert TidyParts(p, QUERY, {}, {}, NoParts, Product(three, [table]), {3}, map[]);
    assert TidyParts(p, QUERY, {}, {}, LAST, three, {3}, map[]);
    assert TidyParts(p, QUERY, {}, {}, Lit(" FROM ", LAST), two, {3}, map[]);
    assert TidyParts(p, QUERY, {}, {}, MIDDLE, one, {3}, map[]);
  }

  lemma TemplateIsReadOnce(cols: string, table: string)
    requires Sourced(Querying(cols, table)) && KnownScope(QUERY, Querying(cols, table).nodes)
    requires Known(TEMPLATE, Querying(cols, table).nodes)
    ensures ReadsOf(Querying(cols, table), QUERY, 0, TEMPLATE, {}, map[]).Some?
  {
    var p := Querying(cols, table);
    PartsFold(cols, table);
    ConstantIsRead(cols, table);
    ParameterIsRead(cols, table);
    ReadTogether();
    hide Sourced, KnownScope, Fold.Fold, ReadsOfName, Both;
    assert {} + {3} == {3} && TEMPLATE.parts == Lit("SELECT ", MIDDLE);
    assert ReadsOfParts(p, QUERY, 0, NoParts, {3}, map[]) == NOTHING;
    assert ReadsOfParts(p, QUERY, 0, LAST, {3}, map[]) == X_READ;
    assert ReadsOfParts(p, QUERY, 0, Lit(" FROM ", LAST), {3}, map[]) == X_READ;
    assert ReadsOfParts(p, QUERY, 0, MIDDLE, {3}, map[]) == Both(COLS_READ, X_READ);
  }

  /** At every moment of every run it is that text, and nothing else. */
  lemma TemplateTakes(cols: string, table: string, v: Value)
    ensures Takes(Querying(cols, table), QUERY, TEMPLATE, v) <==> v == Text("SELECT " + cols + " FROM " + table)
  {
    QueryingIsKnown(cols, table);
    TemplateFolds(cols, table);
    TemplateIsTidy(cols, table);
    TemplateIsReadOnce(cols, table);
    hide Sourced, KnownScope, Known, Fold.Fold, Tidy, ReadsOf, Takes;
    FoldIsExact(Querying(cols, table), QUERY, TEMPLATE, v);
  }
}
