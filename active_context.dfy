/**
 * The JSON-LD active context used while terms are resolved: a table of term
 * definitions with the base IRIs, the processing mode and an optional
 * previous context. The table is a heap object of its own, so that a context
 * made by the copy constructor shares it with its origin.
 */
module ActiveContexts {
  import opened Results

  /** The JSON-LD processing modes. */
  datatype Version = JsonLd10 | JsonLd11

  /** The default base direction, `ltr` or `rtl`. */
  datatype Direction = Ltr | Rtl

  /** A term definition; of its parts only the protected flag is read by the active context. */
  datatype TermDefinition = TermDefinition(iriMapping: Option<string>, protectedFlag: bool)

  /** The `HashMap` of term definitions. */
  class TermTable {
    var defs: map<string, TermDefinition>

    constructor()
      ensures defs == map[]
    {
      defs := map[];
    }
  }

  /** Some stored definition is protected exactly when some key maps to a protected definition. */
  lemma ProtectedValues(m: map<string, TermDefinition>)
    ensures (exists d :: d in m.Values && d.protectedFlag) <==> (exists t :: t in m && m[t].protectedFlag)
  {
    if exists d :: d in m.Values && d.protectedFlag {
      var d :| d in m.Values && d.protectedFlag;
      var t :| t in m && m[t] == d;
    }
    if exists t :: t in m && m[t].protectedFlag {
      var t :| t in m && m[t].protectedFlag;
      assert m[t] in m.Values;
    }
  }

  class ActiveContext {
    var terms: TermTable
    var baseUri: Option<string>
    var baseUrl: Option<string>
    var previousContext: ActiveContext?
    var vocabularyMapping: Option<string>
    var defaultLanguage: Option<string>
    var defaultBaseDirection: Option<Direction>
    var processingMode: Option<Version>

    /** A context with an empty table and no previous context. */
    constructor(baseUri: Option<string>, baseUrl: Option<string>, processingMode: Option<Version>)
      ensures fresh(terms) && terms.defs == map[]
      ensures this.baseUri == baseUri && this.baseUrl == baseUrl && this.processingMode == processingMode
      ensures previousContext == null && vocabularyMapping.None? && defaultLanguage.None? && defaultBaseDirection.None?
      ensures !HasPreviousContext() && !ContainsProtectedTerm()
    {
      this.baseUri := baseUri;
      this.baseUrl := baseUrl;
      terms := new TermTable();
      this.processingMode := processingMode;
      previousContext := null;
      vocabularyMapping := None;
      defaultLanguage := None;
      defaultBaseDirection := None;
    }

    /** A context with an empty table that remembers `previousContext`. */
    constructor WithPrevious(baseUri: Option<string>, baseUrl: Option<string>, previousContext: ActiveContext?, processingMode: Option<Version>)
      ensures fresh(terms) && terms.defs == map[]
      ensures this.baseUri == baseUri && this.baseUrl == baseUrl && this.processingMode == processingMode
      ensures this.previousContext == previousContext
      ensures vocabularyMapping.None? && defaultLanguage.None? && defaultBaseDirection.None?
      ensures HasPreviousContext() <==> previousContext != null
      ensures !ContainsProtectedTerm()
    {
      this.baseUri := baseUri;
      this.baseUrl := baseUrl;
      this.previousContext := previousContext;
      terms := new TermTable();
      this.processingMode := processingMode;
      vocabularyMapping := None;
      defaultLanguage := None;
      defaultBaseDirection := None;
    }

    /** The copy constructor: every field is copied, and the table object is shared, not duplicated. */
    constructor Copy(origin: ActiveContext)
      ensures terms == origin.terms
      ensures baseUri == origin.baseUri && baseUrl == origin.baseUrl
      ensures previousContext == origin.previousContext && vocabularyMapping == origin.vocabularyMapping
      ensures defaultLanguage == origin.defaultLanguage && defaultBaseDirection == origin.defaultBaseDirection
      ensures processingMode == origin.processingMode
    {
      terms := origin.terms;
      baseUri := origin.baseUri;
      baseUrl := origin.baseUrl;
      previousContext := origin.previousContext;
      vocabularyMapping := origin.vocabularyMapping;
      defaultLanguage := origin.defaultLanguage;
      defaultBaseDirection := origin.defaultBaseDirection;
      processingMode := origin.processingMode;
    }

    /** `containsTerm`: whether the table defines `term`, that is, whether `getTerm` finds it. */
    predicate ContainsTerm(term: string): (b: bool)
      reads this, terms
      ensures b <==> GetTerm(term).Some?
    {
      term in terms.defs
    }

    /**
     * `containsProtectedTerm`: whether some stored definition is protected,
     * which holds exactly when some term's definition is.
     */
    predicate ContainsProtectedTerm(): (b: bool)
      reads this, terms
      ensures b <==> exists t :: t in terms.defs && terms.defs[t].protectedFlag
    {
      ProtectedValues(terms.defs);
      exists d :: d in terms.defs.Values && d.protectedFlag
    }

    /** `getTerm`: the definition of `term`, None where the source returns null. */
    function GetTerm(term: string): (r: Option<TermDefinition>)
      reads this, terms
      ensures r.Some? <==> term in terms.defs
      ensures r.Some? ==> r.value == terms.defs[term]
    {
      if term in terms.defs then Some(terms.defs[term]) else None
    }

    /**
     * `removeTerm`: a present term is removed and its definition returned; an
     * absent one gives None and leaves the table as it was.
     */
    method RemoveTerm(term: string) returns (r: Option<TermDefinition>)
      modifies terms
      ensures r == old(GetTerm(term))
      ensures terms.defs == old(terms.defs) - {term}
      ensures !ContainsTerm(term)
      ensures forall t :: t != term ==> GetTerm(t) == old(GetTerm(t))
      ensures ContainsProtectedTerm() <==> exists t :: t in old(terms.defs) && t != term && old(terms.defs)[t].protectedFlag
    {
      ghost var before := terms.defs;
      if term in terms.defs {
        var def := terms.defs[term];
        terms.defs := terms.defs - {term};
        forall t ensures (t in terms.defs && terms.defs[t].protectedFlag) <==> (t in before && t != term && before[t].protectedFlag) {
        }
        return Some(def);
      }
      return None;
    }

    /** `setTerm`: `term` is defined as `definition`; every other term keeps its definition. */
    method SetTerm(term: string, definition: TermDefinition)
      modifies terms
      ensures terms.defs == old(terms.defs)[term := definition]
      ensures ContainsTerm(term) && GetTerm(term) == Some(definition)
      ensures forall t :: t != term ==> GetTerm(t) == old(GetTerm(t))
      ensures ContainsProtectedTerm() <==>
        definition.protectedFlag || exists t :: t in old(terms.defs) && t != term && old(terms.defs)[t].protectedFlag
    {
      ghost var before := terms.defs;
      terms.defs := terms.defs[term := definition];
      assert term in terms.defs && terms.defs[term] == definition;
      forall t | t != term ensures (t in terms.defs && terms.defs[t].protectedFlag) <==> (t in before && before[t].protectedFlag) {
      }
    }

    /** `inMode`: the processing mode is set and equals `version`. */
    predicate InMode(version: Version): (b: bool)
      reads this
      ensures b <==> processingMode == Some(version)
    {
      processingMode != None && processingMode.value == version
    }

    /** `hasPreviousContext`. */
    predicate HasPreviousContext()
      reads this
    {
      previousContext != null
    }
  }

  /** A definition set through a copy is seen through the origin, since both hold the same table. */
  method SetThroughCopy(origin: ActiveContext, term: string, definition: TermDefinition) returns (copy: ActiveContext)
    modifies origin.terms
    ensures fresh(copy) && copy.terms == origin.terms
    ensures origin.ContainsTerm(term) && origin.GetTerm(term) == Some(definition)
    ensures forall t :: t != term ==> origin.GetTerm(t) == old(origin.GetTerm(t))
  {
    copy := new ActiveContext.Copy(origin);
    copy.SetTerm(term, definition);
  }

  /** A term removed through a copy is gone from the origin as well. */
  method RemoveThroughCopy(origin: ActiveContext, term: string) returns (copy: ActiveContext, r: Option<TermDefinition>)
    modifies origin.terms
    ensures fresh(copy) && copy.terms == origin.terms
    ensures r == old(origin.GetTerm(term)) && !origin.ContainsTerm(term)
    ensures forall t :: t != term ==> origin.GetTerm(t) == old(origin.GetTerm(t))
  {
    copy := new ActiveContext.Copy(origin);
    r := copy.RemoveTerm(term);
  }

  /** The other constructors give a table of the context's own: setting a term elsewhere does not reach it. */
  method FreshTableIsSeparate(other: ActiveContext, term: string, definition: TermDefinition) returns (ctx: ActiveContext)
    modifies other.terms
    ensures fresh(ctx) && !ctx.ContainsTerm(term) && other.GetTerm(term) == Some(definition)
  {
    ctx := new ActiveContext(None, None, Some(JsonLd11));
    other.SetTerm(term, definition);
  }
}
