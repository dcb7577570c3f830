/**
 * simple/SimpleRuntimeAgent.java, the binding half: process() and the
 * locate* lookups that find a protocol's select, update and rate members.
 * Reflection is reduced to lists of elements: each element knows its kind,
 * its annotations and the depth of its declaring class below the protocol
 * class (0 for the class itself, 1 for its superclass, ...), so the
 * subclass order over declaring classes is the order on depths.
 */
module Binding {
  import opened Wrappers
  import opened Throwables

  datatype Annotation = Select | SelectUniformRandom | GossipUpdate | GossipRate

  datatype ElementKind = MethodElement | FieldElement | OtherElement

  /** A reflected member of the protocol class or of one of its superclasses. */
  datatype Element = Element(name: string, kind: ElementKind, depth: nat, annotations: set<Annotation>)

  /** `hasAnnotation(a1) or hasAnnotation(a2) ...` over the wanted annotations. */
  predicate Annotated(e: Element, wanted: set<Annotation>) {
    e.annotations * wanted != {}
  }

  /** The annotated elements, in list order. */
  function Matching(es: seq<Element>, wanted: set<Annotation>): (m: seq<Element>)
    ensures |m| <= |es|
    ensures forall e :: e in m <==> e in es && Annotated(e, wanted)
  {
    if es == [] then []
    else (if Annotated(es[0], wanted) then [es[0]] else []) + Matching(es[1..], wanted)
  }

  datatype Search = One(found: Element) | NotFound | TooMany(options: seq<Element>)

  /** Functional.findExactlyOne: the one annotated element, or NotFound, or TooMany listing all of them. */
  function FindExactlyOne(es: seq<Element>, wanted: set<Annotation>): (r: Search)
    ensures r.NotFound? <==> forall e :: e in es ==> !Annotated(e, wanted)
    ensures r.One? ==> r.found in es && Annotated(r.found, wanted)
                       && forall e :: e in es && Annotated(e, wanted) ==> e == r.found
    ensures r.TooMany? ==> |r.options| >= 2 && forall e :: e in r.options <==> e in es && Annotated(e, wanted)
  {
    var m := Matching(es, wanted);
    if |m| == 0 then NotFound
    else
      assert m[0] in m;
      if |m| == 1 then One(m[0]) else TooMany(m)
  }

  // ------------------------------------------------------------ tie-break

  /** The depth of the most-derived declaring class among es. */
  function MinDepth(es: seq<Element>): (d: nat)
    requires es != []
    ensures forall e :: e in es ==> d <= e.depth
    ensures exists e :: e in es && e.depth == d
  {
    if |es| == 1 then es[0].depth
    else
      var rest := MinDepth(es[1..]);
      assert forall e :: e in es[1..] ==> e in es;
      if es[0].depth <= rest then es[0].depth else rest
  }

  /** The group of elements declared at depth d (one `groupBy` bucket). */
  function AtDepth(es: seq<Element>, d: nat): (g: seq<Element>)
    ensures |g| <= |es|
    ensures forall e :: e in g <==> e in es && e.depth == d
  {
    if es == [] then []
    else (if es[0].depth == d then [es[0]] else []) + AtDepth(es[1..], d)
  }

  /**
   * The catch (TooManyException) branch: group the options by declaring
   * class, sort the groups by subclass order and take the first; it must
   * have exactly one member.
   */
  function TieBreak(options: seq<Element>): (r: Search)
    requires options != []
    ensures !r.NotFound?
    ensures r.TooMany? ==> |r.options| >= 2
  {
    var g := AtDepth(options, MinDepth(options));
    if |g| > 1 then TooMany(g) else One(g[0])
  }

  /** locateUpdateMethod / locateFrequencyMethod: findExactlyOne, then the tie-break. */
  function Locate(es: seq<Element>, wanted: set<Annotation>): (r: Search)
    ensures r.One? ==> r.found in es && Annotated(r.found, wanted)
    ensures r.TooMany? ==> |r.options| >= 2 && forall e :: e in r.options ==> e in es && Annotated(e, wanted)
  {
    match FindExactlyOne(es, wanted)
    case TooMany(options) => TieBreak(options)
    case r => r
  }

  /** The annotated elements declared in the most-derived class that declares any. */
  function MostDerivedAnnotated(es: seq<Element>, wanted: set<Annotation>): seq<Element>
    requires Matching(es, wanted) != []
  {
    AtDepth(Matching(es, wanted), MinDepth(Matching(es, wanted)))
  }

  /** NotFound exactly when no element carries a wanted annotation. */
  lemma LocateNotFound(es: seq<Element>, wanted: set<Annotation>)
    ensures Locate(es, wanted).NotFound? <==> forall e :: e in es ==> !Annotated(e, wanted)
  {
    var m := Matching(es, wanted);
    if m != [] {
      assert m[0] in m;
    }
  }

  /**
   * The lookup succeeds exactly when the most-derived class that declares an
   * annotated element declares only one.
   */
  lemma LocateOne(es: seq<Element>, wanted: set<Annotation>)
    ensures Locate(es, wanted).One? <==>
              Matching(es, wanted) != [] && |MostDerivedAnnotated(es, wanted)| == 1
  {
    var m := Matching(es, wanted);
    if |m| == 1 {
      SingleGroup(m);
    } else if m != [] {
      assert Locate(es, wanted) == TieBreak(m);
      TieBreakOne(m);
    }
  }

  lemma TieBreakOne(options: seq<Element>)
    requires options != []
    ensures TieBreak(options).One? <==> |AtDepth(options, MinDepth(options))| == 1
  {
    GroupNotEmpty(options);
  }

  /** The element found is annotated, declared in the most-derived such class, and alone there. */
  lemma LocateFound(es: seq<Element>, wanted: set<Annotation>)
    requires Locate(es, wanted).One?
    ensures Matching(es, wanted) != []
    ensures var e := Locate(es, wanted).found;
              e in es && Annotated(e, wanted)
              && (forall x :: x in es && Annotated(x, wanted) ==> e.depth <= x.depth)
              && MostDerivedAnnotated(es, wanted) == [e]
  {
    var m := Matching(es, wanted);
    LocateOne(es, wanted);
    var g := AtDepth(m, MinDepth(m));
    if |m| == 1 {
      SingleGroup(m);
    } else {
      assert Locate(es, wanted).found == g[0];
      assert g == [g[0]];
      assert g[0] in g;
    }
  }

  lemma SingleGroup(m: seq<Element>)
    requires |m| == 1
    ensures AtDepth(m, MinDepth(m)) == m
  {
    assert m[1..] == [];
  }

  lemma GroupNotEmpty(m: seq<Element>)
    requires m != []
    ensures AtDepth(m, MinDepth(m)) != []
  {
    var d := MinDepth(m);
    assert exists e :: e in m && e.depth == d;
    var e :| e in m && e.depth == d;
    assert e in AtDepth(m, d);
  }

  /** TooMany lists at least two annotated elements, all declared in the most-derived such class. */
  lemma LocateTooMany(es: seq<Element>, wanted: set<Annotation>)
    ensures Locate(es, wanted).TooMany? ==>
              Matching(es, wanted) != []
              && Locate(es, wanted).options == MostDerivedAnnotated(es, wanted)
              && |Locate(es, wanted).options| >= 2
              && forall o :: o in Locate(es, wanted).options ==>
                   o in es && Annotated(o, wanted)
                   && forall x :: x in es && Annotated(x, wanted) ==> o.depth <= x.depth
  {
    var m := Matching(es, wanted);
    if |m| == 1 {
      SingleGroup(m);
    }
  }

  /** Re-grouping the options of a TooMany from the tie-break gives the same TooMany. */
  lemma TieBreakStable(options: seq<Element>)
    requires options != [] && TieBreak(options).TooMany?
    ensures TieBreak(TieBreak(options).options) == TieBreak(options)
  {
    var g := TieBreak(options).options;
    var d := MinDepth(options);
    var d' := MinDepth(g);
    var e :| e in g && e.depth == d';
    assert d' == d;
    AtDepthAll(g, d);
  }

  lemma {:induction false} AtDepthAll(es: seq<Element>, d: nat)
    requires forall e :: e in es ==> e.depth == d
    ensures AtDepth(es, d) == es
  {
    if es != [] {
      forall e | e in es[1..]
        ensures e.depth == d
      {
        assert e in es;
      }
      AtDepthAll(es[1..], d);
      assert es[0] in es;
      assert AtDepth(es, d) == [es[0]] + es[1..];
    }
  }

  // --------------------------------------------------------------- select

  const SelectAnnotations: set<Annotation> := {Select, SelectUniformRandom}

  /** The three selector classes process can install. */
  datatype Selector =
    | SelectMethodSelector(element: Element)
    | SelectFieldSelector(element: Element)
    | UniformRandomCollectionFieldSelector(element: Element)

  /** A protocol class: its own annotated elements and its superclass (None for getSuperclass() == null). */
  datatype ClassInfo = ClassInfo(name: string, elements: seq<Element>, superclass: Option<ClassInfo>)

  datatype LookupError =
    | NotFoundError
    | TooManyError(options: seq<Element>)
    | MultipleSelectAnnotations(element: Element)   // a message-only TooManyException
    | InvalidEntity(element: Element)               // "Select annotation attached to invalid entity"
    | NullSelectElement                             // the annotation tests run on a null element

  /** Whether the lookup failure is one of the exceptions process turns into a CompilerException. */
  predicate IsLookupException(f: LookupError) {
    f.NotFoundError? || f.TooManyError? || f.MultipleSelectAnnotations?
  }

  /** The selector for the element the lookup settled on. */
  function SelectorFor(e: Element): (r: Result<Selector, LookupError>)
    ensures r.Ok? ==> r.value.element == e
    ensures r.Ok? <==>
              (Select in e.annotations && SelectUniformRandom !in e.annotations
                 && (e.kind == MethodElement || e.kind == FieldElement))
              || (Select !in e.annotations && SelectUniformRandom in e.annotations && e.kind == FieldElement)
    ensures r.Ok? && r.value.UniformRandomCollectionFieldSelector? <==>
              Select !in e.annotations && SelectUniformRandom in e.annotations && e.kind == FieldElement
    ensures r.Err? ==> r.error == (if (Select in e.annotations) == (SelectUniformRandom in e.annotations)
                                   then MultipleSelectAnnotations(e) else InvalidEntity(e))
  {
    var select := Select in e.annotations;
    var uniform := SelectUniformRandom in e.annotations;
    if select && !uniform then
      (match e.kind
       case MethodElement => Ok(SelectMethodSelector(e))
       case FieldElement => Ok(SelectFieldSelector(e))
       case OtherElement => Err(InvalidEntity(e)))
    else if !select && uniform then
      (if e.kind == FieldElement then Ok(UniformRandomCollectionFieldSelector(e)) else Err(InvalidEntity(e)))
    else Err(MultipleSelectAnnotations(e))
  }

  /**
   * locateSelectMethod as written: when the class declares no select element
   * and the superclass lookup succeeds, control falls through to the
   * annotation tests with selectElement still null.
   */
  function LocateSelectAsWritten(c: ClassInfo): (r: Result<Selector, LookupError>)
    ensures r != Err(NullSelectElement) ==> r == LocateSelect(c)
    decreases c
  {
    match Locate(c.elements, SelectAnnotations)
    case One(e) => SelectorFor(e)
    case TooMany(options) => Err(TooManyError(options))
    case NotFound =>
      if c.superclass.None? then Err(NotFoundError)
      else
        match LocateSelectAsWritten(c.superclass.value)
        case Ok(_) => Err(NullSelectElement)
        case Err(f) => Err(f)
  }

  /** locateSelectMethod as intended: the superclass's selector is the class's selector. */
  function LocateSelect(c: ClassInfo): (r: Result<Selector, LookupError>)
    ensures r.Err? ==> r.error != NullSelectElement
    decreases c
  {
    match Locate(c.elements, SelectAnnotations)
    case One(e) => SelectorFor(e)
    case TooMany(options) => Err(TooManyError(options))
    case NotFound =>
      if c.superclass.None? then Err(NotFoundError) else LocateSelect(c.superclass.value)
  }

  /** The class and its superclasses, most derived first. */
  function Ancestry(c: ClassInfo): (cs: seq<ClassInfo>)
    ensures cs != [] && cs[0] == c
    decreases c
  {
    if c.superclass.None? then [c] else [c] + Ancestry(c.superclass.value)
  }

  predicate DeclaresSelect(c: ClassInfo) {
    exists e :: e in c.elements && Annotated(e, SelectAnnotations)
  }

  /** NotFound is reported only when no class up the hierarchy declares a select element. */
  lemma {:induction false} LocateSelectNotFound(c: ClassInfo)
    ensures LocateSelect(c) == Err(NotFoundError) <==> forall k :: k in Ancestry(c) ==> !DeclaresSelect(k)
    decreases c
  {
    LocateNotFound(c.elements, SelectAnnotations);
    if Locate(c.elements, SelectAnnotations).NotFound? {
      if c.superclass.Some? {
        LocateSelectNotFound(c.superclass.value);
        assert Ancestry(c) == [c] + Ancestry(c.superclass.value);
      }
    } else {
      assert c in Ancestry(c);
      match Locate(c.elements, SelectAnnotations)
      case One(e) =>
      case TooMany(_) =>
    }
  }

  /** The selector found is the one of the first class up the hierarchy that declares a select element. */
  lemma {:induction false} LocateSelectUsesFirstDeclaring(c: ClassInfo, i: nat)
    requires i < |Ancestry(c)| && DeclaresSelect(Ancestry(c)[i])
    requires forall j :: 0 <= j < i ==> !DeclaresSelect(Ancestry(c)[j])
    ensures LocateSelect(c) == LocateSelect(Ancestry(c)[i])
    ensures !Locate(Ancestry(c)[i].elements, SelectAnnotations).NotFound?
    decreases c
  {
    LocateNotFound(Ancestry(c)[i].elements, SelectAnnotations);
    if i > 0 {
      FirstDeclaringInSuperclass(c, i);
      DefersToSuperclass(c);
      LocateSelectUsesFirstDeclaring(c.superclass.value, i - 1);
    }
  }

  /** One step up the hierarchy: the first declaring class is one position earlier in the superclass's ancestry. */
  lemma FirstDeclaringInSuperclass(c: ClassInfo, i: nat)
    requires 0 < i < |Ancestry(c)| && DeclaresSelect(Ancestry(c)[i])
    requires forall j :: 0 <= j < i ==> !DeclaresSelect(Ancestry(c)[j])
    ensures c.superclass.Some? && !DeclaresSelect(c)
    ensures i - 1 < |Ancestry(c.superclass.value)| && Ancestry(c.superclass.value)[i - 1] == Ancestry(c)[i]
    ensures forall j :: 0 <= j < i - 1 ==> !DeclaresSelect(Ancestry(c.superclass.value)[j])
  {
    var s := c.superclass.value;
    assert Ancestry(c) == [c] + Ancestry(s);
    assert !DeclaresSelect(Ancestry(c)[0]);
    forall j | 0 <= j < i - 1
      ensures !DeclaresSelect(Ancestry(s)[j])
    {
      assert Ancestry(s)[j] == Ancestry(c)[j + 1];
    }
  }

  /** A class that declares no select element has its superclass's selector. */
  lemma DefersToSuperclass(c: ClassInfo)
    requires !DeclaresSelect(c) && c.superclass.Some?
    ensures LocateSelect(c) == LocateSelect(c.superclass.value)
  {
    LocateNotFound(c.elements, SelectAnnotations);
  }

  /** When the class itself declares a select element, both versions agree. */
  lemma AsWrittenAgreesOnOwnSelect(c: ClassInfo)
    requires DeclaresSelect(c)
    ensures LocateSelectAsWritten(c) == LocateSelect(c)
  {
    LocateNotFound(c.elements, SelectAnnotations);
  }

  /** Whenever the select element is inherited and the superclass lookup succeeds, the code as written fails. */
  lemma AsWrittenLosesInheritedSelect(c: ClassInfo)
    requires !DeclaresSelect(c) && c.superclass.Some?
    requires LocateSelectAsWritten(c.superclass.value).Ok?
    ensures LocateSelectAsWritten(c) == Err(NullSelectElement)
  {
    LocateNotFound(c.elements, SelectAnnotations);
  }

  /**
   * The reading of getAnnotatedElements under which a class's element list
   * includes what it inherits: whenever a superclass has a select element,
   * so does the class's own list.
   */
  predicate ListsInherited(c: ClassInfo)
    decreases c
  {
    c.superclass.Some? ==>
      (DeclaresSelect(c.superclass.value) ==> DeclaresSelect(c)) && ListsInherited(c.superclass.value)
  }

  lemma {:induction false} NoneUpTheHierarchy(c: ClassInfo)
    requires ListsInherited(c) && !DeclaresSelect(c)
    ensures forall k :: k in Ancestry(c) ==> !DeclaresSelect(k)
    decreases c
  {
    if c.superclass.Some? {
      NoneUpTheHierarchy(c.superclass.value);
      assert Ancestry(c) == [c] + Ancestry(c.superclass.value);
    }
  }

  /** When element lists include inherited members, the code as written never reaches the null element. */
  lemma AsWrittenAgreesWhenInheritedListed(c: ClassInfo)
    requires ListsInherited(c)
    ensures LocateSelectAsWritten(c) == LocateSelect(c)
  {
    if DeclaresSelect(c) {
      AsWrittenAgreesOnOwnSelect(c);
    } else {
      NoneUpTheHierarchy(c);
      LocateSelectNotFound(c);
    }
  }

  /** A protocol whose select method is declared in its superclass. */
  const InheritingProtocol: ClassInfo :=
    ClassInfo("Sub", [Element("x", FieldElement, 0, {})],
      Some(ClassInfo("Base", [Element("select", MethodElement, 1, {Select})], None)))

  lemma InheritedSelectCounterexample()
    ensures LocateSelectAsWritten(InheritingProtocol) == Err(NullSelectElement)
    ensures LocateSelect(InheritingProtocol) == Ok(SelectMethodSelector(Element("select", MethodElement, 1, {Select})))
  {
    var base := InheritingProtocol.superclass.value;
    var sel := Element("select", MethodElement, 1, {Select});
    assert Matching(base.elements, SelectAnnotations) == [sel] by {
      assert Annotated(sel, SelectAnnotations) by {
        assert Select in sel.annotations * SelectAnnotations;
      }
      assert base.elements[1..] == [];
    }
    assert Matching(InheritingProtocol.elements, SelectAnnotations) == [] by {
      assert InheritingProtocol.elements[1..] == [];
    }
  }

  // -------------------------------------------------------------- process

  datatype Stage = SelectStage | UpdateStage | FrequencyStage

  /** What process() lets escape: a CompilerException naming the stage, or an unrelated RuntimeException. */
  datatype ProcessError = CompilerException(stage: Stage, cause: LookupError) | Escaped(e: Throwable)

  const InvalidEntityException := Unchecked("RuntimeException: Select annotation attached to invalid entity")

  /**
   * How process reports a select lookup failure: the lookup exceptions become
   * a CompilerException, the invalid-entity RuntimeException and the
   * NullPointerException of a null element pass through.
   */
  function SelectFailure(f: LookupError): (r: ProcessError)
    ensures r.CompilerException? <==> IsLookupException(f)
    ensures r.CompilerException? ==> r == CompilerException(SelectStage, f)
    ensures f.InvalidEntity? ==> r == Escaped(InvalidEntityException)
    ensures f.NullSelectElement? ==> r == Escaped(NullPointerException)
  {
    if IsLookupException(f) then CompilerException(SelectStage, f)
    else if f.InvalidEntity? then Escaped(InvalidEntityException)
    else Escaped(NullPointerException)
  }

  /** How process reports an update or rate lookup result that is not a single method. */
  function MethodFailure(stage: Stage, s: Search): ProcessError
    requires !s.One?
  {
    if s.NotFound? then CompilerException(stage, NotFoundError) else CompilerException(stage, TooManyError(s.options))
  }

  class SimpleRuntimeAgent {
    const pclass: ClassInfo
    /** The public methods reflection reports for pclass, inherited ones included. */
    const methods: seq<Element>
    var selector: Option<Selector>
    var updateMethod: Option<Element>
    var frequencyMethod: Option<Element>

    constructor (pclass: ClassInfo, methods: seq<Element>)
      ensures this.pclass == pclass && this.methods == methods
      ensures selector == None && updateMethod == None && frequencyMethod == None
    {
      this.pclass := pclass;
      this.methods := methods;
      selector := None;
      updateMethod := None;
      frequencyMethod := None;
    }

    /**
     * process: the select, update and rate lookups in turn; the first that
     * fails ends it, leaving the later fields as they were.
     */
    method Process() returns (r: Result<(), ProcessError>)
      modifies this`selector, this`updateMethod, this`frequencyMethod
      ensures LocateSelect(pclass).Err? ==>
                r == Err(SelectFailure(LocateSelect(pclass).error)) && unchanged(this)
      ensures LocateSelect(pclass).Ok? ==> selector == Some(LocateSelect(pclass).value)
      ensures LocateSelect(pclass).Ok? && !Locate(methods, {GossipUpdate}).One? ==>
                r == Err(MethodFailure(UpdateStage, Locate(methods, {GossipUpdate})))
                && updateMethod == old(updateMethod) && frequencyMethod == old(frequencyMethod)
      ensures LocateSelect(pclass).Ok? && Locate(methods, {GossipUpdate}).One? ==>
                updateMethod == Some(Locate(methods, {GossipUpdate}).found)
      ensures LocateSelect(pclass).Ok? && Locate(methods, {GossipUpdate}).One? && !Locate(methods, {GossipRate}).One? ==>
                r == Err(MethodFailure(FrequencyStage, Locate(methods, {GossipRate})))
                && frequencyMethod == old(frequencyMethod)
      ensures r.Ok? <==>
                LocateSelect(pclass).Ok? && Locate(methods, {GossipUpdate}).One? && Locate(methods, {GossipRate}).One?
      ensures r.Ok? ==> frequencyMethod == Some(Locate(methods, {GossipRate}).found)
    {
      var s := LocateSelect(pclass);
      if s.Err? {
        return Err(SelectFailure(s.error));
      }
      selector := Some(s.value);
      var u := Locate(methods, {GossipUpdate});
      if !u.One? {
        return Err(MethodFailure(UpdateStage, u));
      }
      updateMethod := Some(u.found);
      var f := Locate(methods, {GossipRate});
      if !f.One? {
        return Err(MethodFailure(FrequencyStage, f));
      }
      frequencyMethod := Some(f.found);
      return Ok(());
    }
  }

  /** new SimpleRuntimeAgent(pclass): construction runs process and fails with it. */
  method NewAgent(pclass: ClassInfo, methods: seq<Element>) returns (r: Result<SimpleRuntimeAgent, ProcessError>)
    ensures r.Ok? <==>
              LocateSelect(pclass).Ok? && Locate(methods, {GossipUpdate}).One? && Locate(methods, {GossipRate}).One?
    ensures r.Ok? ==>
              r.value.selector == Some(LocateSelect(pclass).value)
              && r.value.updateMethod == Some(Locate(methods, {GossipUpdate}).found)
              && r.value.frequencyMethod == Some(Locate(methods, {GossipRate}).found)
    ensures r.Err? && LocateSelect(pclass).Err? ==> r.error == SelectFailure(LocateSelect(pclass).error)
  {
    var agent := new SimpleRuntimeAgent(pclass, methods);
    var p := agent.Process();
    if p.Err? {
      return Err(p.error);
    }
    return Ok(agent);
  }

  /** Every failed lookup of update or rate surfaces as a CompilerException for its stage. */
  lemma MethodFailuresAreCompilerExceptions(stage: Stage, es: seq<Element>, wanted: set<Annotation>)
    requires !Locate(es, wanted).One?
    ensures MethodFailure(stage, Locate(es, wanted)).CompilerException?
    ensures MethodFailure(stage, Locate(es, wanted)).stage == stage
    ensures MethodFailure(stage, Locate(es, wanted)).cause == NotFoundError <==>
              forall e :: e in es ==> !Annotated(e, wanted)
  {
    LocateNotFound(es, wanted);
  }
}
