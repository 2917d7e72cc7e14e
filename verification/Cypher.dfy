/**
 The corrector of core/kg/cypher_corrector.py against the validator of
 core/kg/cypher_validator.py, for a validator built from label and type sets.

 A query is the token sequence that the regular expressions see: complete node and
 relationship patterns, patterns that go on after the colon, words, runs of semicolons and
 other punctuation. White space is not represented. Case folding and the two keyword tests
 are functions of the lexicon.
 */
module Cypher {
  import opened Wrappers

  datatype Token =
    | Node(alias: string, nodeLabel: string)
    | Opening(alias: string)
    | Bracket(alias: string, relType: string)
    | Word(text: string)
    | Semicolons
    | Punctuation(text: string)

  type Query = seq<Token>

  datatype Lexicon = Lexicon(lower: string -> string, upper: string -> string, isMatch: string -> bool, isReturn: string -> bool)
  {
    /** Words that differ only in case are the same keyword, RETURN is one, and only "" folds like "". */
    ghost predicate Coherent() {
      && (forall a, b :: lower(a) == lower(b) ==> isMatch(a) == isMatch(b) && isReturn(a) == isReturn(b))
      && (forall a, b :: upper(a) == upper(b) ==> isMatch(a) == isMatch(b) && isReturn(a) == isReturn(b))
      && (forall a :: (lower(a) == lower("") ==> a == "") && (upper(a) == upper("") ==> a == ""))
      && isReturn("RETURN")
    }
  }

  /** The names that the patterns capture are not empty. */
  ghost predicate WellFormed(q: Query) {
    forall i :: 0 <= i < |q| ==> (q[i].Node? ==> q[i].nodeLabel != "") && (q[i].Bracket? ==> q[i].relType != "")
  }

  // ---------------------------------------------------------------------------
  // Names and lookups
  // ---------------------------------------------------------------------------

  type Lookup = map<string, string>

  /** `{fold(name): name for name in valid}`, whichever of two names with the same fold comes last. */
  ghost predicate IsLookup(lookup: Lookup, valid: set<string>, fold: string -> string) {
    && (forall name :: name in valid ==> fold(name) in lookup)
    && (forall k :: k in lookup ==> lookup[k] in valid && fold(lookup[k]) == k)
  }

  function FixName(lookup: Lookup, fold: string -> string, name: string): string {
    var k := fold(name);
    if k in lookup && lookup[k] != "" && lookup[k] != name then lookup[k] else name
  }

  datatype Schema = Schema(lexicon: Lexicon, labels: set<string>, relTypes: set<string>, labelLookup: Lookup, relLookup: Lookup)
  {
    ghost predicate Valid() {
      && lexicon.Coherent()
      && IsLookup(labelLookup, labels, lexicon.lower)
      && IsLookup(relLookup, relTypes, lexicon.upper)
    }
  }

  // ---------------------------------------------------------------------------
  // The corrector
  // ---------------------------------------------------------------------------

  datatype Correction =
    | LabelCase(was: string, canonical: string)
    | RelTypeCase(was: string, canonical: string)
    | AddedReturn(what: string)

  function FixLabel(c: Schema, t: Token): Token {
    if t.Node? then t.(nodeLabel := FixName(c.labelLookup, c.lexicon.lower, t.nodeLabel)) else t
  }

  function FixRelType(c: Schema, t: Token): Token {
    if t.Bracket? then t.(relType := FixName(c.relLookup, c.lexicon.upper, t.relType)) else t
  }

  ghost function FixLabels(c: Schema, q: Query): Query {
    seq(|q|, i requires 0 <= i < |q| => FixLabel(c, q[i]))
  }

  ghost function FixRelTypes(c: Schema, q: Query): Query {
    seq(|q|, i requires 0 <= i < |q| => FixRelType(c, q[i]))
  }

  predicate Mentions(t: Token, isKeyword: string -> bool) {
    match t
    case Node(alias, nodeLabel) => isKeyword(alias) || isKeyword(nodeLabel)
    case Opening(alias) => isKeyword(alias)
    case Bracket(alias, relType) => isKeyword(alias) || isKeyword(relType)
    case Word(text) => isKeyword(text)
    case _ => false
  }

  predicate Has(q: Query, isKeyword: string -> bool) {
    exists i :: 0 <= i < |q| && Mentions(q[i], isKeyword)
  }

  /** The first alias in front of a colon, if any. */
  function FirstAlias(q: Query): Option<string> {
    if q == [] then None
    else if (q[0].Node? || q[0].Opening?) && q[0].alias != "" then Some(q[0].alias)
    else FirstAlias(q[1..])
  }

  function ReturnClause(q: Query): Query {
    match FirstAlias(q)
    case Some(alias) => [Word("RETURN"), Word(alias)]
    case None => [Word("RETURN"), Punctuation("*")]
  }

  function StripSemicolons(q: Query): Query {
    if q != [] && q[|q| - 1].Semicolons? then q[..|q| - 1] else q
  }

  predicate LacksReturn(c: Schema, q: Query) {
    Has(q, c.lexicon.isMatch) && !Has(q, c.lexicon.isReturn)
  }

  function AddReturn(c: Schema, q: Query): Query {
    if LacksReturn(c, q) then StripSemicolons(q) + ReturnClause(q) else q
  }

  ghost function Corrected(c: Schema, q: Query): Query {
    AddReturn(c, FixRelTypes(c, FixLabels(c, q)))
  }

  /** What a report says of one token: nothing unless its name changed, and then both spellings. */
  ghost function EditOf(was: Token, now: Token): seq<Correction> {
    match (was, now)
    case (Node(_, a), Node(_, b)) => if a == b then [] else [LabelCase(a, b)]
    case (Bracket(_, a), Bracket(_, b)) => if a == b then [] else [RelTypeCase(a, b)]
    case _ => []
  }

  /** The report of all changes from `q` to `fixed`, in order. */
  ghost function Edits(q: Query, fixed: Query): seq<Correction>
    requires |q| == |fixed|
  {
    if q == [] then []
    else
      var k := |q| - 1;
      Edits(q[..k], fixed[..k]) + EditOf(q[k], fixed[k])
  }

  lemma EditsSnoc(q: Query, i: nat, fixed: Query, t: Token)
    requires i < |q| && |fixed| == i
    ensures Edits(q[..i + 1], fixed + [t]) == Edits(q[..i], fixed) + EditOf(q[i], t)
  {
    assert q[..i + 1][..i] == q[..i] && (fixed + [t])[..i] == fixed;
  }

  /** Only names change. */
  ghost predicate Renamed(was: Token, now: Token) {
    match was
    case Node(alias, _) => now.Node? && now.alias == alias
    case Bracket(alias, _) => now.Bracket? && now.alias == alias
    case _ => now == was
  }

  /** A report is empty only when nothing changed. */
  lemma {:induction false} EditsVisible(q: Query, fixed: Query)
    requires |q| == |fixed| && forall i :: 0 <= i < |q| ==> Renamed(q[i], fixed[i])
    ensures Edits(q, fixed) == [] <==> fixed == q
  {
    if q != [] {
      var k := |q| - 1;
      EditsVisible(q[..k], fixed[..k]);
      EditVisible(q[k], fixed[k]);
      SameSnoc(q, fixed);
      BothEmpty(Edits(q[..k], fixed[..k]), EditOf(q[k], fixed[k]));
    }
  }

  lemma SameSnoc(q: Query, fixed: Query)
    requires |q| == |fixed| > 0
    ensures
      var k := |q| - 1;
      fixed == q <==> fixed[..k] == q[..k] && fixed[k] == q[k]
  {
    var k := |q| - 1;
    assert q == q[..k] + [q[k]] && fixed == fixed[..k] + [fixed[k]];
  }

  lemma BothEmpty<T>(front: seq<T>, last: seq<T>)
    ensures front + last == [] <==> front == [] && last == []
  {
    assert |front + last| == |front| + |last|;
  }

  lemma EditVisible(was: Token, now: Token)
    requires Renamed(was, now)
    ensures EditOf(was, now) == [] <==> was == now
  {
  }

  // ---------------------------------------------------------------------------
  // The rules, by what they promise
  // ---------------------------------------------------------------------------

  /** A name with a valid spelling that folds like it takes the one of the lookup; any other name stays. */
  ghost predicate Canonical(lookup: Lookup, valid: set<string>, fold: string -> string, was: string, now: string) {
    if exists name :: name in valid && fold(name) == fold(was)
    then now in valid && fold(now) == fold(was) && fold(was) in lookup && now == lookup[fold(was)]
    else now == was
  }

  ghost predicate LabelsCanonical(c: Schema, q: Query, fixed: Query) {
    |fixed| == |q| && forall i :: 0 <= i < |q| ==>
      && Renamed(q[i], fixed[i])
      && (q[i].Node? ==> Canonical(c.labelLookup, c.labels, c.lexicon.lower, q[i].nodeLabel, fixed[i].nodeLabel))
      && (!q[i].Node? ==> fixed[i] == q[i])
  }

  ghost predicate RelTypesCanonical(c: Schema, q: Query, fixed: Query) {
    |fixed| == |q| && forall i :: 0 <= i < |q| ==>
      && Renamed(q[i], fixed[i])
      && (q[i].Bracket? ==> Canonical(c.relLookup, c.relTypes, c.lexicon.upper, q[i].relType, fixed[i].relType))
      && (!q[i].Bracket? ==> fixed[i] == q[i])
  }

  lemma FixNameIsCanonical(lookup: Lookup, valid: set<string>, fold: string -> string, name: string)
    requires IsLookup(lookup, valid, fold) && forall a :: fold(a) == fold("") ==> a == ""
    ensures Canonical(lookup, valid, fold, name, FixName(lookup, fold, name))
  {
  }

  lemma FixesAreCanonical(c: Schema, q: Query)
    requires c.Valid()
    ensures LabelsCanonical(c, q, FixLabels(c, q)) && RelTypesCanonical(c, q, FixRelTypes(c, q))
  {
    forall i | 0 <= i < |q| && q[i].Node?
      ensures Canonical(c.labelLookup, c.labels, c.lexicon.lower, q[i].nodeLabel, FixLabels(c, q)[i].nodeLabel)
    {
      FixNameIsCanonical(c.labelLookup, c.labels, c.lexicon.lower, q[i].nodeLabel);
    }
    forall i | 0 <= i < |q| && q[i].Bracket?
      ensures Canonical(c.relLookup, c.relTypes, c.lexicon.upper, q[i].relType, FixRelTypes(c, q)[i].relType)
    {
      FixNameIsCanonical(c.relLookup, c.relTypes, c.lexicon.upper, q[i].relType);
    }
  }

  /** The words a token holds. */
  ghost function WordsOf(t: Token): set<string> {
    match t
    case Node(alias, nodeLabel) => {alias, nodeLabel}
    case Opening(alias) => {alias}
    case Bracket(alias, relType) => {alias, relType}
    case Word(text) => {text}
    case Semicolons => {}
    case Punctuation(_) => {}
  }

  /** Some word of the query is the keyword. */
  ghost predicate Occurs(q: Query, isKeyword: string -> bool) {
    exists i, word :: 0 <= i < |q| && word in WordsOf(q[i]) && isKeyword(word)
  }

  lemma HasIffOccurs(q: Query, isKeyword: string -> bool)
    ensures Has(q, isKeyword) <==> Occurs(q, isKeyword)
  {
    forall i | 0 <= i < |q| ensures Mentions(q[i], isKeyword) <==> exists word :: word in WordsOf(q[i]) && isKeyword(word) {
      MentionsIff(q[i], isKeyword);
    }
  }

  lemma MentionsIff(t: Token, isKeyword: string -> bool)
    ensures Mentions(t, isKeyword) <==> exists word :: word in WordsOf(t) && isKeyword(word)
  {
    match t
    case Node(alias, nodeLabel) => assert alias in WordsOf(t) && nodeLabel in WordsOf(t);
    case Opening(alias) => assert alias in WordsOf(t);
    case Bracket(alias, relType) => assert alias in WordsOf(t) && relType in WordsOf(t);
    case Word(text) => assert text in WordsOf(t);
    case Semicolons =>
    case Punctuation(_) =>
  }

  /** The token opens a node and names it. */
  ghost predicate Names(t: Token, alias: string) {
    (t.Node? || t.Opening?) && t.alias == alias && alias != ""
  }

  ghost predicate IsFirstAlias(q: Query, alias: string) {
    exists i :: 0 <= i < |q| && Names(q[i], alias) && forall j, other :: 0 <= j < i ==> !Names(q[j], other)
  }

  lemma {:induction false} FirstAliasIsFirst(q: Query)
    ensures match FirstAlias(q)
            case Some(alias) => IsFirstAlias(q, alias)
            case None => forall i, alias :: 0 <= i < |q| ==> !Names(q[i], alias)
  {
    if q != [] {
      var rest := q[1..];
      FirstAliasIsFirst(rest);
      if (q[0].Node? || q[0].Opening?) && q[0].alias != "" {
        assert Names(q[0], q[0].alias);
      } else if FirstAlias(rest).Some? {
        var alias := FirstAlias(rest).value;
        var i :| 0 <= i < |rest| && Names(rest[i], alias) && forall j, other :: 0 <= j < i ==> !Names(rest[j], other);
        assert Names(q[i + 1], alias);
        forall j, other | 0 <= j < i + 1 ensures !Names(q[j], other) {
          assert j > 0 ==> q[j] == rest[j - 1];
        }
      } else {
        forall i, alias | 0 <= i < |q| ensures !Names(q[i], alias) {
          assert i > 0 ==> q[i] == rest[i - 1];
        }
      }
    }
  }

  /** `fixed` is `q`, without a final run of semicolons, and then RETURN with what it returns. */
  ghost predicate Returning(q: Query, fixed: Query, what: Token) {
    exists body :: fixed == body + [Word("RETURN"), what] &&
      if q != [] && q[|q| - 1] == Semicolons then q == body + [Semicolons] else q == body
  }

  /** The third rule: a query with MATCH and without RETURN returns its first alias, or everything when it has none. */
  ghost predicate ReturnAdded(c: Schema, q: Query, fixed: Query, corrections: seq<Correction>) {
    if !Occurs(q, c.lexicon.isMatch) || Occurs(q, c.lexicon.isReturn) then fixed == q && corrections == []
    else
      || (exists alias :: IsFirstAlias(q, alias) && Returning(q, fixed, Word(alias)) && corrections == [AddedReturn(alias)])
      || ((forall i, alias :: 0 <= i < |q| ==> !Names(q[i], alias))
          && Returning(q, fixed, Punctuation("*")) && corrections == [AddedReturn("*")])
  }

  lemma ReturnIsAdded(c: Schema, q: Query)
    ensures ReturnAdded(c, q, AddReturn(c, q), ReturnEdit(c, q))
  {
    HasIffOccurs(q, c.lexicon.isMatch);
    HasIffOccurs(q, c.lexicon.isReturn);
    FirstAliasIsFirst(q);
    if LacksReturn(c, q) {
      var body := StripSemicolons(q);
      assert q != [] && q[|q| - 1] == Semicolons ==> q == body + [Semicolons];
      var what := if FirstAlias(q).Some? then Word(FirstAlias(q).value) else Punctuation("*");
      assert AddReturn(c, q) == body + [Word("RETURN"), what];
      assert Returning(q, AddReturn(c, q), what);
    }
  }

  ghost predicate LabelsFixed(c: Schema, q: Query, i: nat, fixed: Query, corrections: seq<Correction>)
    requires i <= |q|
  {
    fixed == FixLabels(c, q[..i]) && corrections == Edits(q[..i], fixed)
  }

  lemma LabelsFixedStep(c: Schema, q: Query, i: nat, fixed: Query, corrections: seq<Correction>)
    requires i < |q| && LabelsFixed(c, q, i, fixed, corrections)
    ensures
      var t := FixLabel(c, q[i]);
      LabelsFixed(c, q, i + 1, fixed + [t], if t != q[i] then corrections + [LabelCase(q[i].nodeLabel, t.nodeLabel)] else corrections)
  {
    var t := FixLabel(c, q[i]);
    EditsSnoc(q, i, fixed, t);
    assert fixed + [t] == FixLabels(c, q[..i + 1]);
  }

  method FixLabelCase(c: Schema, q: Query) returns (fixed: Query, corrections: seq<Correction>)
    ensures fixed == FixLabels(c, q)
    ensures c.Valid() ==> LabelsCanonical(c, q, fixed)
    ensures corrections == Edits(q, fixed)
    ensures corrections == [] <==> fixed == q
  {
    if c.Valid() {
      FixesAreCanonical(c, q);
    }
    fixed, corrections := [], [];
    for i := 0 to |q|
      invariant LabelsFixed(c, q, i, fixed, corrections)
    {
      LabelsFixedStep(c, q, i, fixed, corrections);
      var t := FixLabel(c, q[i]);
      if t != q[i] {
        corrections := corrections + [LabelCase(q[i].nodeLabel, t.nodeLabel)];
      }
      fixed := fixed + [t];
    }
    assert q[..|q|] == q;
    EditsVisible(q, fixed);
  }

  ghost predicate RelTypesFixed(c: Schema, q: Query, i: nat, fixed: Query, corrections: seq<Correction>)
    requires i <= |q|
  {
    fixed == FixRelTypes(c, q[..i]) && corrections == Edits(q[..i], fixed)
  }

  lemma RelTypesFixedStep(c: Schema, q: Query, i: nat, fixed: Query, corrections: seq<Correction>)
    requires i < |q| && RelTypesFixed(c, q, i, fixed, corrections)
    ensures
      var t := FixRelType(c, q[i]);
      RelTypesFixed(c, q, i + 1, fixed + [t], if t != q[i] then corrections + [RelTypeCase(q[i].relType, t.relType)] else corrections)
  {
    var t := FixRelType(c, q[i]);
    EditsSnoc(q, i, fixed, t);
    assert fixed + [t] == FixRelTypes(c, q[..i + 1]);
  }

  method FixRelTypeCase(c: Schema, q: Query) returns (fixed: Query, corrections: seq<Correction>)
    ensures fixed == FixRelTypes(c, q)
    ensures c.Valid() ==> RelTypesCanonical(c, q, fixed)
    ensures corrections == Edits(q, fixed)
    ensures corrections == [] <==> fixed == q
  {
    if c.Valid() {
      FixesAreCanonical(c, q);
    }
    fixed, corrections := [], [];
    for i := 0 to |q|
      invariant RelTypesFixed(c, q, i, fixed, corrections)
    {
      RelTypesFixedStep(c, q, i, fixed, corrections);
      var t := FixRelType(c, q[i]);
      if t != q[i] {
        corrections := corrections + [RelTypeCase(q[i].relType, t.relType)];
      }
      fixed := fixed + [t];
    }
    assert q[..|q|] == q;
    EditsVisible(q, fixed);
  }

  method AddReturnClause(c: Schema, q: Query) returns (fixed: Query, corrections: seq<Correction>)
    requires c.Valid()
    ensures fixed == AddReturn(c, q)
    ensures corrections == [] <==> fixed == q
    ensures corrections == ReturnEdit(c, q) && ReturnAdded(c, q, fixed, corrections)
  {
    ReturnIsAdded(c, q);
    if LacksReturn(c, q) {
      var alias := FirstAlias(q);
      fixed := StripSemicolons(q) + ReturnClause(q);
      corrections := [AddedReturn(alias.UnwrapOr("*"))];
      ClauseReturns(c, q);
    } else {
      fixed, corrections := q, [];
    }
  }

  /** The report of the third rule: what the added clause returns. */
  ghost function ReturnEdit(c: Schema, q: Query): seq<Correction> {
    if LacksReturn(c, q) then [AddedReturn(FirstAlias(q).UnwrapOr("*"))] else []
  }

  /** `correct`: `wasModified` is exactly "some correction was applied". */
  method Correct(c: Schema, q: Query) returns (corrected: Query, corrections: seq<Correction>, wasModified: bool)
    requires c.Valid()
    ensures corrected == Corrected(c, q)
    ensures wasModified <==> corrected != q
    ensures corrections == [] <==> corrected == q
    ensures
      var labels := FixLabels(c, q);
      var types := FixRelTypes(c, labels);
      && LabelsCanonical(c, q, labels) && RelTypesCanonical(c, labels, types)
      && ReturnAdded(c, types, corrected, ReturnEdit(c, types))
      && corrections == Edits(q, labels) + Edits(labels, types) + ReturnEdit(c, types)
  {
    FixesAreCanonical(c, q);
    FixesAreCanonical(c, FixLabels(c, q));
    ReturnIsAdded(c, FixRelTypes(c, FixLabels(c, q)));
    if q == [] {
      return q, [], false;
    }
    var labels, first := FixLabelCase(c, q);
    var types, second := FixRelTypeCase(c, labels);
    var result, third := AddReturnClause(c, types);
    corrected, corrections := result, first + second + third;
    wasModified := corrected != q;
    FixesAreVisible(c, q);
  }

  // ---------------------------------------------------------------------------
  // Keywords survive the fixes
  // ---------------------------------------------------------------------------

  lemma FixNameFolds(lookup: Lookup, valid: set<string>, fold: string -> string, name: string)
    requires IsLookup(lookup, valid, fold)
    ensures fold(FixName(lookup, fold, name)) == fold(name)
    ensures FixName(lookup, fold, FixName(lookup, fold, name)) == FixName(lookup, fold, name)
  {
  }

  lemma FixesKeepKeywords(c: Schema, q: Query, isKeyword: string -> bool)
    requires c.Valid()
    requires forall a, b :: c.lexicon.lower(a) == c.lexicon.lower(b) ==> isKeyword(a) == isKeyword(b)
    requires forall a, b :: c.lexicon.upper(a) == c.lexicon.upper(b) ==> isKeyword(a) == isKeyword(b)
    ensures Has(FixRelTypes(c, FixLabels(c, q)), isKeyword) <==> Has(q, isKeyword)
  {
    var fixed := FixRelTypes(c, FixLabels(c, q));
    forall i | 0 <= i < |q| ensures Mentions(fixed[i], isKeyword) <==> Mentions(q[i], isKeyword) {
      if q[i].Node? {
        FixNameFolds(c.labelLookup, c.labels, c.lexicon.lower, q[i].nodeLabel);
      } else if q[i].Bracket? {
        FixNameFolds(c.relLookup, c.relTypes, c.lexicon.upper, q[i].relType);
      }
    }
  }

  /** The added clause is found by the RETURN test, and stripping semicolons hides no word. */
  lemma ClauseReturns(c: Schema, q: Query)
    requires c.Valid()
    ensures Has(StripSemicolons(q) + ReturnClause(q), c.lexicon.isReturn)
    ensures Has(q, c.lexicon.isMatch) ==> Has(StripSemicolons(q) + ReturnClause(q), c.lexicon.isMatch)
  {
    var stripped := StripSemicolons(q);
    var longer := stripped + ReturnClause(q);
    assert longer[|stripped|] == Word("RETURN");
    assert Mentions(longer[|stripped|], c.lexicon.isReturn);
    if Has(q, c.lexicon.isMatch) {
      var i :| 0 <= i < |q| && Mentions(q[i], c.lexicon.isMatch);
      assert longer[i] == q[i];
    }
  }

  lemma AddReturnKeepsKeywords(c: Schema, q: Query)
    requires c.Valid()
    ensures Has(AddReturn(c, q), c.lexicon.isMatch) <==> Has(q, c.lexicon.isMatch)
    ensures Has(AddReturn(c, q), c.lexicon.isMatch) ==> Has(AddReturn(c, q), c.lexicon.isReturn)
    ensures Has(q, c.lexicon.isReturn) ==> AddReturn(c, q) == q
  {
    ClauseReturns(c, q);
  }

  /** The three rules never undo one another, so what any of them changes stays changed. */
  lemma FixesAreVisible(c: Schema, q: Query)
    requires c.Valid()
    ensures
      var labels := FixLabels(c, q);
      var types := FixRelTypes(c, labels);
      AddReturn(c, types) == q <==> labels == q && types == labels && AddReturn(c, types) == types
  {
  }

  lemma FixesTwice(c: Schema, q: Query)
    requires c.Valid()
    ensures
      var fixed := FixRelTypes(c, FixLabels(c, q));
      FixLabels(c, fixed) == fixed && FixRelTypes(c, fixed) == fixed
  {
  }

  /** `correct` is idempotent. */
  lemma {:induction false} CorrectIsIdempotent(c: Schema, q: Query)
    requires c.Valid()
    ensures Corrected(c, Corrected(c, q)) == Corrected(c, q)
  {
    var fixed := FixRelTypes(c, FixLabels(c, q));
    var q' := AddReturn(c, fixed);
    FixesTwice(c, q);
    assert FixLabels(c, q') == q' by {
      forall i | 0 <= i < |q'| ensures FixLabel(c, q'[i]) == q'[i] {
        assert q'[i].Node? ==> q'[i] == fixed[i] && FixLabels(c, fixed)[i] == fixed[i];
      }
    }
    assert FixRelTypes(c, q') == q' by {
      forall i | 0 <= i < |q'| ensures FixRelType(c, q'[i]) == q'[i] {
        assert q'[i].Bracket? ==> q'[i] == fixed[i] && FixRelTypes(c, fixed)[i] == fixed[i];
      }
    }
    AddReturnKeepsKeywords(c, fixed);
  }

  // ---------------------------------------------------------------------------
  // The validator
  // ---------------------------------------------------------------------------

  datatype Error = EmptyQuery | MissingMatch | UnknownLabel(name: string) | UnknownRelType(name: string) | MissingReturn

  datatype Warning = LabelHasWrongCase(name: string, canonical: string) | RelTypeHasWrongCase(name: string, canonical: string)

  datatype FailureType = NoFailure | SchemaFailure

  datatype Report = Report(isValid: bool, errors: seq<Error>, warnings: seq<Warning>, tenths: int, failure: FailureType)

  /** What the label check says about one pattern; "Node" is a placeholder. */
  function LabelError(v: Schema, t: Token): seq<Error> {
    if t.Node? && t.nodeLabel != "Node" && t.nodeLabel !in v.labels && v.lexicon.lower(t.nodeLabel) !in v.labelLookup
    then [UnknownLabel(t.nodeLabel)] else []
  }

  function LabelWarning(v: Schema, t: Token): seq<Warning> {
    if t.Node? && t.nodeLabel != "Node" && t.nodeLabel !in v.labels && v.lexicon.lower(t.nodeLabel) in v.labelLookup
    then [LabelHasWrongCase(t.nodeLabel, v.labelLookup[v.lexicon.lower(t.nodeLabel)])] else []
  }

  function RelError(v: Schema, t: Token): seq<Error> {
    if t.Bracket? && t.relType !in v.relTypes && v.lexicon.upper(t.relType) !in v.relLookup
    then [UnknownRelType(t.relType)] else []
  }

  function RelWarning(v: Schema, t: Token): seq<Warning> {
    if t.Bracket? && t.relType !in v.relTypes && v.lexicon.upper(t.relType) in v.relLookup
    then [RelTypeHasWrongCase(t.relType, v.relLookup[v.lexicon.upper(t.relType)])] else []
  }

  ghost function Gather<T>(f: Token -> seq<T>, q: Query): seq<T> {
    if q == [] then [] else Gather(f, q[..|q| - 1]) + f(q[|q| - 1])
  }

  ghost function LabelErrors(v: Schema, q: Query): seq<Error> {
    if v.labels == {} then [] else Gather(t => LabelError(v, t), q)
  }

  ghost function LabelWarnings(v: Schema, q: Query): seq<Warning> {
    if v.labels == {} then [] else Gather(t => LabelWarning(v, t), q)
  }

  ghost function RelErrors(v: Schema, q: Query): seq<Error> {
    if v.relTypes == {} then [] else Gather(t => RelError(v, t), q)
  }

  ghost function RelWarnings(v: Schema, q: Query): seq<Warning> {
    if v.relTypes == {} then [] else Gather(t => RelWarning(v, t), q)
  }

  /** All errors, in the order of the checks. */
  ghost function Errors(v: Schema, q: Query): seq<Error> {
    if q == [] then [EmptyQuery]
    else
      (if Has(q, v.lexicon.isMatch) then [] else [MissingMatch])
      + LabelErrors(v, q) + RelErrors(v, q)
      + (if Has(q, v.lexicon.isReturn) then [] else [MissingReturn])
  }

  ghost function Warnings(v: Schema, q: Query): seq<Warning> {
    if q == [] then [] else LabelWarnings(v, q) + RelWarnings(v, q)
  }

  /** `_compute_score`, in tenths: no rounding is left to do. */
  function Tenths(errors: nat, warnings: nat): (s: int)
    ensures 0 <= s <= 10
    ensures errors == 0 ==> s >= 1
  {
    if errors > 0 then (if 10 - 3 * errors - warnings < 0 then 0 else 10 - 3 * errors - warnings)
    else (if 10 - warnings < 1 then 1 else 10 - warnings)
  }

  ghost function Score(v: Schema, q: Query): int {
    if q == [] then 0 else Tenths(|Errors(v, q)|, |Warnings(v, q)|)
  }

  // ---------------------------------------------------------------------------
  // What the checks report, by the names in the query
  // ---------------------------------------------------------------------------

  ghost predicate UsesLabel(q: Query, name: string) {
    exists i :: 0 <= i < |q| && q[i].Node? && q[i].nodeLabel == name
  }

  ghost predicate UsesRelType(q: Query, name: string) {
    exists i :: 0 <= i < |q| && q[i].Bracket? && q[i].relType == name
  }

  /** Some valid name folds like `name`. */
  ghost predicate Known(valid: set<string>, fold: string -> string, name: string) {
    exists other :: other in valid && fold(other) == fold(name)
  }

  /** `canonical` is the valid name that the lookup gives for a name that folds like it. */
  ghost predicate Suggests(lookup: Lookup, valid: set<string>, fold: string -> string, name: string, canonical: string) {
    canonical in valid && fold(canonical) == fold(name) && fold(name) in lookup && canonical == lookup[fold(name)]
  }

  /** A label is an error when it is not the placeholder and no valid label folds like it. */
  ghost predicate BadLabel(v: Schema, name: string) {
    v.labels != {} && name != "Node" && !Known(v.labels, v.lexicon.lower, name)
  }

  /** A label draws a warning when it is not valid but a valid one folds like it. */
  ghost predicate MisspeltLabel(v: Schema, name: string, canonical: string) {
    && v.labels != {} && name != "Node" && name !in v.labels
    && Suggests(v.labelLookup, v.labels, v.lexicon.lower, name, canonical)
  }

  ghost predicate BadRelType(v: Schema, name: string) {
    v.relTypes != {} && !Known(v.relTypes, v.lexicon.upper, name)
  }

  ghost predicate MisspeltRelType(v: Schema, name: string, canonical: string) {
    && v.relTypes != {} && name !in v.relTypes
    && Suggests(v.relLookup, v.relTypes, v.lexicon.upper, name, canonical)
  }

  /** Exactly the problems that the query has are among the errors. */
  ghost predicate FindsErrors(v: Schema, q: Query, errors: seq<Error>) {
    && (EmptyQuery !in errors)
    && (MissingMatch in errors <==> !Occurs(q, v.lexicon.isMatch))
    && (MissingReturn in errors <==> !Occurs(q, v.lexicon.isReturn))
    && (forall name :: UnknownLabel(name) in errors <==> UsesLabel(q, name) && BadLabel(v, name))
    && (forall name :: UnknownRelType(name) in errors <==> UsesRelType(q, name) && BadRelType(v, name))
  }

  ghost predicate FindsWarnings(v: Schema, q: Query, warnings: seq<Warning>) {
    && (forall name, canonical :: LabelHasWrongCase(name, canonical) in warnings <==>
          UsesLabel(q, name) && MisspeltLabel(v, name, canonical))
    && (forall name, canonical :: RelTypeHasWrongCase(name, canonical) in warnings <==>
          UsesRelType(q, name) && MisspeltRelType(v, name, canonical))
  }

  /** The places of the patterns with a bad or a misspelt name. */
  ghost function BadLabels(v: Schema, q: Query): set<nat> {
    set i: nat | i < |q| && q[i].Node? && BadLabel(v, q[i].nodeLabel)
  }

  ghost function BadRelTypes(v: Schema, q: Query): set<nat> {
    set i: nat | i < |q| && q[i].Bracket? && BadRelType(v, q[i].relType)
  }

  ghost function MisspeltLabels(v: Schema, q: Query): set<nat> {
    set i: nat | i < |q| && q[i].Node? && exists canonical :: MisspeltLabel(v, q[i].nodeLabel, canonical)
  }

  ghost function MisspeltRelTypes(v: Schema, q: Query): set<nat> {
    set i: nat | i < |q| && q[i].Bracket? && exists canonical :: MisspeltRelType(v, q[i].relType, canonical)
  }

  lemma {:induction false} GatherMembers<T>(f: Token -> seq<T>, q: Query, x: T)
    ensures x in Gather(f, q) <==> exists i :: 0 <= i < |q| && x in f(q[i])
  {
    if q != [] {
      GatherMembers(f, q[..|q| - 1], x);
    }
  }

  lemma LabelChecked(v: Schema, t: Token)
    requires v.Valid()
    ensures v.labels != {} && t.Node? ==>
              && LabelError(v, t) == (if BadLabel(v, t.nodeLabel) then [UnknownLabel(t.nodeLabel)] else [])
              && forall x :: x in LabelWarning(v, t) <==>
                   x.LabelHasWrongCase? && x.name == t.nodeLabel && MisspeltLabel(v, x.name, x.canonical)
    ensures !t.Node? ==> LabelError(v, t) == [] && LabelWarning(v, t) == []
    ensures |LabelWarning(v, t)| <= 1
  {
  }

  lemma RelTypeChecked(v: Schema, t: Token)
    requires v.Valid()
    ensures v.relTypes != {} && t.Bracket? ==>
              && RelError(v, t) == (if BadRelType(v, t.relType) then [UnknownRelType(t.relType)] else [])
              && forall x :: x in RelWarning(v, t) <==>
                   x.RelTypeHasWrongCase? && x.name == t.relType && MisspeltRelType(v, x.name, x.canonical)
    ensures !t.Bracket? ==> RelError(v, t) == [] && RelWarning(v, t) == []
    ensures |RelWarning(v, t)| <= 1
  {
  }

  lemma LabelErrorsAre(v: Schema, q: Query, x: Error)
    requires v.Valid()
    ensures x in LabelErrors(v, q) <==> x.UnknownLabel? && UsesLabel(q, x.name) && BadLabel(v, x.name)
  {
    forall i | 0 <= i < |q| ensures v.labels != {} ==>
        (x in LabelError(v, q[i]) <==> x.UnknownLabel? && q[i].Node? && q[i].nodeLabel == x.name && BadLabel(v, x.name)) {
      LabelChecked(v, q[i]);
    }
    GatherMembers(t => LabelError(v, t), q, x);
  }

  lemma LabelWarningsAre(v: Schema, q: Query, x: Warning)
    requires v.Valid()
    ensures x in LabelWarnings(v, q) <==>
            x.LabelHasWrongCase? && UsesLabel(q, x.name) && MisspeltLabel(v, x.name, x.canonical)
  {
    forall i | 0 <= i < |q| ensures v.labels != {} ==>
        (x in LabelWarning(v, q[i]) <==>
           x.LabelHasWrongCase? && q[i].Node? && q[i].nodeLabel == x.name && MisspeltLabel(v, x.name, x.canonical)) {
      LabelChecked(v, q[i]);
    }
    GatherMembers(t => LabelWarning(v, t), q, x);
  }

  lemma RelErrorsAre(v: Schema, q: Query, x: Error)
    requires v.Valid()
    ensures x in RelErrors(v, q) <==> x.UnknownRelType? && UsesRelType(q, x.name) && BadRelType(v, x.name)
  {
    forall i | 0 <= i < |q| ensures v.relTypes != {} ==>
        (x in RelError(v, q[i]) <==> x.UnknownRelType? && q[i].Bracket? && q[i].relType == x.name && BadRelType(v, x.name)) {
      RelTypeChecked(v, q[i]);
    }
    GatherMembers(t => RelError(v, t), q, x);
  }

  lemma RelWarningsAre(v: Schema, q: Query, x: Warning)
    requires v.Valid()
    ensures x in RelWarnings(v, q) <==>
            x.RelTypeHasWrongCase? && UsesRelType(q, x.name) && MisspeltRelType(v, x.name, x.canonical)
  {
    forall i | 0 <= i < |q| ensures v.relTypes != {} ==>
        (x in RelWarning(v, q[i]) <==>
           x.RelTypeHasWrongCase? && q[i].Bracket? && q[i].relType == x.name && MisspeltRelType(v, x.name, x.canonical)) {
      RelTypeChecked(v, q[i]);
    }
    GatherMembers(t => RelWarning(v, t), q, x);
  }

  /** The tokens of which `f` has something to say. */
  ghost function Drawing<T>(f: Token -> seq<T>, q: Query): set<nat> {
    set i: nat | i < |q| && f(q[i]) != []
  }

  lemma {:induction false} GatherCounts<T>(f: Token -> seq<T>, q: Query)
    requires forall i :: 0 <= i < |q| ==> |f(q[i])| <= 1
    ensures |Gather(f, q)| == |Drawing(f, q)|
  {
    if q != [] {
      var k: nat := |q| - 1;
      GatherCounts(f, q[..k]);
      var before := Drawing(f, q[..k]);
      assert Drawing(f, q) == before + if f(q[k]) != [] then {k} else {};
    }
  }

  lemma LabelErrorsCounted(v: Schema, q: Query)
    requires v.Valid()
    ensures |LabelErrors(v, q)| == |BadLabels(v, q)|
  {
    forall t ensures |LabelError(v, t)| <= 1 && (v.labels != {} && LabelError(v, t) != [] <==> t.Node? && BadLabel(v, t.nodeLabel)) {
      LabelChecked(v, t);
    }
    if v.labels == {} {
      assert BadLabels(v, q) == {};
    } else {
      GatherCounts(t => LabelError(v, t), q);
      assert Drawing(t => LabelError(v, t), q) == BadLabels(v, q);
    }
  }

  lemma RelErrorsCounted(v: Schema, q: Query)
    requires v.Valid()
    ensures |RelErrors(v, q)| == |BadRelTypes(v, q)|
  {
    forall t ensures |RelError(v, t)| <= 1 && (v.relTypes != {} && RelError(v, t) != [] <==> t.Bracket? && BadRelType(v, t.relType)) {
      RelTypeChecked(v, t);
    }
    if v.relTypes == {} {
      assert BadRelTypes(v, q) == {};
    } else {
      GatherCounts(t => RelError(v, t), q);
      assert Drawing(t => RelError(v, t), q) == BadRelTypes(v, q);
    }
  }

  lemma LabelWarningsCounted(v: Schema, q: Query)
    requires v.Valid()
    ensures |LabelWarnings(v, q)| == |MisspeltLabels(v, q)|
  {
    forall t ensures |LabelWarning(v, t)| <= 1
                     && (v.labels != {} && LabelWarning(v, t) != [] <==>
                           t.Node? && exists canonical :: MisspeltLabel(v, t.nodeLabel, canonical)) {
      LabelChecked(v, t);
      DrawsWarning(v, t);
    }
    if v.labels == {} {
      assert MisspeltLabels(v, q) == {};
    } else {
      GatherCounts(t => LabelWarning(v, t), q);
      assert Drawing(t => LabelWarning(v, t), q) == MisspeltLabels(v, q);
    }
  }

  lemma RelWarningsCounted(v: Schema, q: Query)
    requires v.Valid()
    ensures |RelWarnings(v, q)| == |MisspeltRelTypes(v, q)|
  {
    forall t ensures |RelWarning(v, t)| <= 1
                     && (v.relTypes != {} && RelWarning(v, t) != [] <==>
                           t.Bracket? && exists canonical :: MisspeltRelType(v, t.relType, canonical)) {
      RelTypeChecked(v, t);
      DrawsWarning(v, t);
    }
    if v.relTypes == {} {
      assert MisspeltRelTypes(v, q) == {};
    } else {
      GatherCounts(t => RelWarning(v, t), q);
      assert Drawing(t => RelWarning(v, t), q) == MisspeltRelTypes(v, q);
    }
  }

  /** One error for every bad pattern and for a missing MATCH or RETURN, one warning for every misspelt pattern. */
  lemma {:induction false} ReportsCounted(v: Schema, q: Query)
    requires v.Valid() && q != []
    ensures |Errors(v, q)| == |BadLabels(v, q)| + |BadRelTypes(v, q)|
                              + (if Occurs(q, v.lexicon.isMatch) then 0 else 1) + (if Occurs(q, v.lexicon.isReturn) then 0 else 1)
    ensures |Warnings(v, q)| == |MisspeltLabels(v, q)| + |MisspeltRelTypes(v, q)|
  {
    LabelErrorsCounted(v, q);
    RelErrorsCounted(v, q);
    LabelWarningsCounted(v, q);
    RelWarningsCounted(v, q);
    HasIffOccurs(q, v.lexicon.isMatch);
    HasIffOccurs(q, v.lexicon.isReturn);
  }

  lemma DrawsWarning(v: Schema, t: Token)
    requires v.Valid()
    ensures v.labels != {} && LabelWarning(v, t) != [] <==>
            t.Node? && exists canonical :: MisspeltLabel(v, t.nodeLabel, canonical)
    ensures v.relTypes != {} && RelWarning(v, t) != [] <==>
            t.Bracket? && exists canonical :: MisspeltRelType(v, t.relType, canonical)
  {
    LabelChecked(v, t);
    RelTypeChecked(v, t);
    if t.Node? {
      if canonical :| MisspeltLabel(v, t.nodeLabel, canonical) {
        assert LabelHasWrongCase(t.nodeLabel, canonical) in LabelWarning(v, t);
      }
      if v.labels != {} && LabelWarning(v, t) != [] {
        assert LabelWarning(v, t)[0] in LabelWarning(v, t);
      }
    }
    if t.Bracket? {
      if canonical :| MisspeltRelType(v, t.relType, canonical) {
        assert RelTypeHasWrongCase(t.relType, canonical) in RelWarning(v, t);
      }
      if v.relTypes != {} && RelWarning(v, t) != [] {
        assert RelWarning(v, t)[0] in RelWarning(v, t);
      }
    }
  }

  /** The errors and warnings of a query are exactly the problems it has. */
  lemma ReportsFind(v: Schema, q: Query)
    requires v.Valid() && q != []
    ensures FindsErrors(v, q, Errors(v, q)) && FindsWarnings(v, q, Warnings(v, q))
  {
    HasIffOccurs(q, v.lexicon.isMatch);
    HasIffOccurs(q, v.lexicon.isReturn);
    forall x ensures x in Errors(v, q) <==>
        || (x == MissingMatch && !Has(q, v.lexicon.isMatch)) || (x == MissingReturn && !Has(q, v.lexicon.isReturn))
        || (x.UnknownLabel? && UsesLabel(q, x.name) && BadLabel(v, x.name))
        || (x.UnknownRelType? && UsesRelType(q, x.name) && BadRelType(v, x.name)) {
      LabelErrorsAre(v, q, x);
      RelErrorsAre(v, q, x);
    }
    forall x ensures x in Warnings(v, q) <==>
        || (x.LabelHasWrongCase? && UsesLabel(q, x.name) && MisspeltLabel(v, x.name, x.canonical))
        || (x.RelTypeHasWrongCase? && UsesRelType(q, x.name) && MisspeltRelType(v, x.name, x.canonical)) {
      LabelWarningsAre(v, q, x);
      RelWarningsAre(v, q, x);
    }
  }

  /** A perfect query scores ten; every error costs three and every warning one, down to zero, or to one without errors. */
  lemma ScoreFalls(errors: nat, warnings: nat)
    ensures Tenths(0, 0) == 10
    ensures Tenths(errors + 1, warnings) == if Tenths(errors, warnings) >= 3 then Tenths(errors, warnings) - 3 else 0
    ensures Tenths(0, warnings + 1) == if Tenths(0, warnings) > 1 then Tenths(0, warnings) - 1 else 1
    ensures Tenths(errors + 1, warnings + 1) == if Tenths(errors + 1, warnings) > 0 then Tenths(errors + 1, warnings) - 1 else 0
  {
  }

  method CheckLabels(v: Schema, q: Query) returns (errors: seq<Error>, warnings: seq<Warning>)
    requires v.labels != {}
    ensures errors == LabelErrors(v, q) && warnings == LabelWarnings(v, q)
    ensures v.Valid() ==>
              && (forall name :: UnknownLabel(name) in errors <==> UsesLabel(q, name) && BadLabel(v, name))
              && (forall name, canonical :: LabelHasWrongCase(name, canonical) in warnings <==>
                    UsesLabel(q, name) && MisspeltLabel(v, name, canonical))
  {
    if v.Valid() {
      forall x ensures x in LabelErrors(v, q) <==> x.UnknownLabel? && UsesLabel(q, x.name) && BadLabel(v, x.name) {
        LabelErrorsAre(v, q, x);
      }
      forall x ensures x in LabelWarnings(v, q) <==>
          x.LabelHasWrongCase? && UsesLabel(q, x.name) && MisspeltLabel(v, x.name, x.canonical) {
        LabelWarningsAre(v, q, x);
      }
    }
    errors, warnings := [], [];
    for i := 0 to |q|
      invariant errors == Gather(t => LabelError(v, t), q[..i])
      invariant warnings == Gather(t => LabelWarning(v, t), q[..i])
    {
      assert q[..i + 1][..i] == q[..i];
      errors := errors + LabelError(v, q[i]);
      warnings := warnings + LabelWarning(v, q[i]);
    }
    assert q[..|q|] == q;
  }

  method CheckRelationships(v: Schema, q: Query) returns (errors: seq<Error>, warnings: seq<Warning>)
    requires v.relTypes != {}
    ensures errors == RelErrors(v, q) && warnings == RelWarnings(v, q)
    ensures v.Valid() ==>
              && (forall name :: UnknownRelType(name) in errors <==> UsesRelType(q, name) && BadRelType(v, name))
              && (forall name, canonical :: RelTypeHasWrongCase(name, canonical) in warnings <==>
                    UsesRelType(q, name) && MisspeltRelType(v, name, canonical))
  {
    if v.Valid() {
      forall x ensures x in RelErrors(v, q) <==> x.UnknownRelType? && UsesRelType(q, x.name) && BadRelType(v, x.name) {
        RelErrorsAre(v, q, x);
      }
      forall x ensures x in RelWarnings(v, q) <==>
          x.RelTypeHasWrongCase? && UsesRelType(q, x.name) && MisspeltRelType(v, x.name, x.canonical) {
        RelWarningsAre(v, q, x);
      }
    }
    errors, warnings := [], [];
    for i := 0 to |q|
      invariant errors == Gather(t => RelError(v, t), q[..i])
      invariant warnings == Gather(t => RelWarning(v, t), q[..i])
    {
      assert q[..i + 1][..i] == q[..i];
      errors := errors + RelError(v, q[i]);
      warnings := warnings + RelWarning(v, q[i]);
    }
    assert q[..|q|] == q;
  }

  method Validate(v: Schema, q: Query) returns (r: Report)
    ensures r.errors == Errors(v, q) && r.warnings == Warnings(v, q) && r.tenths == Score(v, q)
    ensures q == [] ==> r.errors == [EmptyQuery] && r.warnings == [] && r.tenths == 0
    ensures v.Valid() && q != [] ==>
              && FindsErrors(v, q, r.errors) && FindsWarnings(v, q, r.warnings)
              && |r.errors| == |BadLabels(v, q)| + |BadRelTypes(v, q)|
                               + (if Occurs(q, v.lexicon.isMatch) then 0 else 1) + (if Occurs(q, v.lexicon.isReturn) then 0 else 1)
              && |r.warnings| == |MisspeltLabels(v, q)| + |MisspeltRelTypes(v, q)|
              && r.tenths == Tenths(|r.errors|, |r.warnings|)
    ensures r.isValid <==> r.errors == []
    ensures r.failure == SchemaFailure <==> r.errors != []
  {
    if v.Valid() && q != [] {
      ReportsFind(v, q);
      ReportsCounted(v, q);
    }
    if q == [] {
      return Report(false, [EmptyQuery], [], 0, SchemaFailure);
    }
    var syntax := if Has(q, v.lexicon.isMatch) then [] else [MissingMatch];
    var labelErrors: seq<Error>, labelWarnings: seq<Warning> := [], [];
    if v.labels != {} {
      labelErrors, labelWarnings := CheckLabels(v, q);
    }
    var relErrors: seq<Error>, relWarnings: seq<Warning> := [], [];
    if v.relTypes != {} {
      relErrors, relWarnings := CheckRelationships(v, q);
    }
    var clause := if Has(q, v.lexicon.isReturn) then [] else [MissingReturn];
    var errors, warnings := syntax + labelErrors + relErrors + clause, labelWarnings + relWarnings;
    r := Report(errors == [], errors, warnings, Tenths(|errors|, |warnings|),
                if errors != [] then SchemaFailure else NoFailure);
  }

  // ---------------------------------------------------------------------------
  // Correction against validation
  // ---------------------------------------------------------------------------

  lemma {:induction false} GatherPointwise<T>(f: Token -> seq<T>, p: Query, q: Query)
    requires |p| == |q| && forall i :: 0 <= i < |p| ==> f(p[i]) == f(q[i])
    ensures Gather(f, p) == Gather(f, q)
  {
    if p != [] {
      GatherPointwise(f, p[..|p| - 1], q[..|q| - 1]);
    }
  }

  lemma {:induction false} GatherNothing<T>(f: Token -> seq<T>, q: Query)
    requires forall i :: 0 <= i < |q| ==> f(q[i]) == []
    ensures Gather(f, q) == []
  {
    if q != [] {
      GatherNothing(f, q[..|q| - 1]);
    }
  }

  lemma Reassociate<T>(a: seq<T>, b: seq<T>, c: seq<T>)
    ensures a + b + c == a + (b + c)
  {
  }

  lemma {:induction false} GatherConcat<T>(f: Token -> seq<T>, p: Query, q: Query)
    ensures Gather(f, p + q) == Gather(f, p) + Gather(f, q)
  {
    if q == [] {
      assert p + q == p;
    } else {
      var front, last := q[..|q| - 1], q[|q| - 1];
      GatherConcat(f, p, front);
      assert (p + q)[..|p + q| - 1] == p + front;
      Reassociate(Gather(f, p), Gather(f, front), f(last));
    }
  }

  /** Tokens that no name check looks at, such as an added clause or a stripped run of semicolons, add nothing. */
  lemma {:induction false} ClauseIsNeutral<T>(f: Token -> seq<T>, c: Schema, q: Query)
    requires forall t: Token :: !t.Node? && !t.Bracket? ==> f(t) == []
    ensures Gather(f, AddReturn(c, q)) == Gather(f, q)
  {
    if LacksReturn(c, q) {
      GatherConcat(f, StripSemicolons(q), ReturnClause(q));
      GatherNothing(f, ReturnClause(q));
    }
  }

  ghost function Fixed(c: Schema, t: Token): Token {
    FixRelType(c, FixLabel(c, t))
  }

  lemma NameChecksAfterFix(c: Schema, t: Token)
    requires c.Valid() && (t.Node? ==> t.nodeLabel != "") && (t.Bracket? ==> t.relType != "")
    ensures LabelError(c, Fixed(c, t)) == LabelError(c, t) && RelError(c, Fixed(c, t)) == RelError(c, t)
    ensures LabelWarning(c, Fixed(c, t)) == [] && RelWarning(c, Fixed(c, t)) == []
  {
  }

  lemma GatherAfterCorrection<T>(f: Token -> seq<T>, c: Schema, q: Query)
    requires forall t: Token :: !t.Node? && !t.Bracket? ==> f(t) == []
    ensures (forall i :: 0 <= i < |q| ==> f(Fixed(c, q[i])) == f(q[i])) ==> Gather(f, Corrected(c, q)) == Gather(f, q)
    ensures (forall i :: 0 <= i < |q| ==> f(Fixed(c, q[i])) == []) ==> Gather(f, Corrected(c, q)) == []
  {
    var fixed := FixRelTypes(c, FixLabels(c, q));
    assert forall i :: 0 <= i < |q| ==> fixed[i] == Fixed(c, q[i]);
    ClauseIsNeutral(f, c, fixed);
    if forall i :: 0 <= i < |q| ==> f(Fixed(c, q[i])) == f(q[i]) {
      GatherPointwise(f, fixed, q);
    }
    if forall i :: 0 <= i < |q| ==> f(Fixed(c, q[i])) == [] {
      GatherNothing(f, fixed);
    }
  }

  /** Correction removes every wrong-case warning and leaves the unknown-name errors as they were. */
  lemma NameProblemsAfterCorrection(c: Schema, q: Query)
    requires c.Valid() && WellFormed(q)
    ensures LabelErrors(c, Corrected(c, q)) == LabelErrors(c, q)
    ensures RelErrors(c, Corrected(c, q)) == RelErrors(c, q)
    ensures LabelWarnings(c, Corrected(c, q)) == [] && RelWarnings(c, Corrected(c, q)) == []
  {
    LabelProblemsAfterCorrection(c, q);
    RelProblemsAfterCorrection(c, q);
  }

  lemma {:induction false} LabelProblemsAfterCorrection(c: Schema, q: Query)
    requires c.Valid() && WellFormed(q)
    ensures LabelErrors(c, Corrected(c, q)) == LabelErrors(c, q) && LabelWarnings(c, Corrected(c, q)) == []
  {
    forall i | 0 <= i < |q|
      ensures LabelError(c, Fixed(c, q[i])) == LabelError(c, q[i]) && LabelWarning(c, Fixed(c, q[i])) == []
    {
      NameChecksAfterFix(c, q[i]);
    }
    GatherAfterCorrection(t => LabelError(c, t), c, q);
    GatherAfterCorrection(t => LabelWarning(c, t), c, q);
  }

  lemma {:induction false} RelProblemsAfterCorrection(c: Schema, q: Query)
    requires c.Valid() && WellFormed(q)
    ensures RelErrors(c, Corrected(c, q)) == RelErrors(c, q) && RelWarnings(c, Corrected(c, q)) == []
  {
    forall i | 0 <= i < |q|
      ensures RelError(c, Fixed(c, q[i])) == RelError(c, q[i]) && RelWarning(c, Fixed(c, q[i])) == []
    {
      NameChecksAfterFix(c, q[i]);
    }
    GatherAfterCorrection(t => RelError(c, t), c, q);
    GatherAfterCorrection(t => RelWarning(c, t), c, q);
  }

  /**
   For a validator with the same label and type sets, the corrected query has no warning, no
   missing RETURN when it has a MATCH, and a score that is never lower.
   */
  lemma {:induction false} CorrectionHelps(c: Schema, q: Query)
    requires c.Valid() && WellFormed(q)
    ensures Warnings(c, Corrected(c, q)) == []
    ensures Has(Corrected(c, q), c.lexicon.isMatch) <==> Has(q, c.lexicon.isMatch)
    ensures Has(Corrected(c, q), c.lexicon.isMatch) ==> MissingReturn !in Errors(c, Corrected(c, q))
    ensures |Errors(c, Corrected(c, q))| <= |Errors(c, q)|
    ensures Score(c, Corrected(c, q)) >= Score(c, q)
  {
    NameProblemsAfterCorrection(c, q);
    KeywordsAfterCorrection(c, q);
    NoReturnAmongNames(c, Corrected(c, q));
  }

  lemma KeywordsAfterCorrection(c: Schema, q: Query)
    requires c.Valid()
    ensures Has(Corrected(c, q), c.lexicon.isMatch) <==> Has(q, c.lexicon.isMatch)
    ensures Has(q, c.lexicon.isMatch) || Has(q, c.lexicon.isReturn) ==> Has(Corrected(c, q), c.lexicon.isReturn)
  {
    var fixed := FixRelTypes(c, FixLabels(c, q));
    FixesKeepKeywords(c, q, c.lexicon.isMatch);
    FixesKeepKeywords(c, q, c.lexicon.isReturn);
    AddReturnKeepsKeywords(c, fixed);
  }

  lemma NoReturnAmongNames(c: Schema, q: Query)
    ensures MissingReturn !in LabelErrors(c, q) && MissingReturn !in RelErrors(c, q)
  {
    GatherLacks(t => LabelError(c, t), q, MissingReturn);
    GatherLacks(t => RelError(c, t), q, MissingReturn);
  }

  lemma {:induction false} GatherLacks<T>(f: Token -> seq<T>, q: Query, x: T)
    requires forall t: Token :: x !in f(t)
    ensures x !in Gather(f, q)
  {
    if q != [] {
      GatherLacks(f, q[..|q| - 1], x);
    }
  }
}
