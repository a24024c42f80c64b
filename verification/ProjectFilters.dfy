/** Resolving custom types in a project's handler filters, in place, when it is loaded (project.ts). */
module ProjectFilters {
  import opened Js
  import opened CustomTypes

  predicate Blank(s: string) {
    forall i :: 0 <= i < |s| ==> s[i] in " \t\r\n"
  }

  predicate HexPrefixed(s: string) {
    |s| >= 2 && s[..2] == "0x"
  }

  /** What becomes of an event handler's topics: only a signature in the first position is resolved. */
  function ResolvedTopics(topics: seq<Text>, types: seq<CustomType>): seq<Text> {
    if topics != [] && topics[0].Str? && !Blank(topics[0].s) && !HexPrefixed(topics[0].s)
    then topics[0 := Str(Resolve(topics[0].s, types))] else topics
  }

  function ResolvedFunction(func: Text, types: seq<CustomType>): Text {
    if Truthy(func) && !HexPrefixed(func.s) then Str(Resolve(func.s, types)) else func
  }

  datatype Kind = BlockKind | CallKind | EventKind

  /** What a filter object says; a missing filter or topic list is an empty one here, which is left alone too. */
  datatype Content = Content(topics: seq<Text>, func: Text)

  function Resolved(kind: Kind, content: Content, types: seq<CustomType>): Content {
    match kind
    case EventKind => content.(topics := ResolvedTopics(content.topics, types))
    case CallKind => content.(func := ResolvedFunction(content.func, types))
    case BlockKind => content
  }

  /** A handler with its filter object. */
  class HandlerFilter {
    const kind: Kind
    var topics: seq<Text>
    var func: Text

    ghost function Filter(): Content
      reads this
    {
      Content(topics, func)
    }

    constructor (kind: Kind, topics: seq<Text>, func: Text)
      ensures this.kind == kind && Filter() == Content(topics, func)
    {
      this.kind, this.topics, this.func := kind, topics, func;
    }

    method ProcessEventHandlerFilters(types: seq<CustomType>)
      modifies this`topics
      ensures topics == if kind.EventKind? then ResolvedTopics(old(topics), types) else old(topics)
    {
      if !kind.EventKind? || topics == [] {
        return;
      }
      var topic := topics[0];
      if topic.Str? && !Blank(topic.s) && !HexPrefixed(topic.s) {
        var resolved := ResolveCustomTypesInSignature(topic.s, types);
        if resolved != topic.s {
          topics := topics[0 := Str(resolved)];
        }
      }
    }

    method ProcessTransactionHandlerFilters(types: seq<CustomType>)
      modifies this`func
      ensures func == if kind.CallKind? then ResolvedFunction(old(func), types) else old(func)
    {
      if !kind.CallKind? || !Truthy(func) {
        return;
      }
      if !HexPrefixed(func.s) {
        var resolved := ResolveCustomTypesInSignature(func.s, types);
        if resolved != func.s {
          func := Str(resolved);
        }
      }
    }
  }

  /** Some character of the text is not white space, and it does not start with `0x`. */
  predicate IsSignature(s: string) {
    && (exists i :: 0 <= i < |s| && s[i] != ' ' && s[i] != '\t' && s[i] != '\r' && s[i] != '\n')
    && !(|s| > 1 && s[0] == '0' && s[1] == 'x')
  }

  /** Processing resolves the signature of an event handler's first topic and nothing else of the filter. */
  lemma FirstTopicIsResolved(content: Content, types: seq<CustomType>)
    requires content.topics != []
    ensures Resolved(EventKind, content, types).func == content.func
    ensures Resolved(EventKind, content, types).topics[1..] == content.topics[1..]
    ensures |Resolved(EventKind, content, types).topics| == |content.topics|
    ensures Resolved(EventKind, content, types).topics[0] ==
            if content.topics[0].Str? && IsSignature(content.topics[0].s) then Str(Resolve(content.topics[0].s, types))
            else content.topics[0]
  {
    if content.topics[0].Str? {
      var s := content.topics[0].s;
      assert |s| > 1 ==> (s[..2] == "0x" <==> s[0] == '0' && s[1] == 'x');
      assert forall c :: c in " \t\r\n" <==> c == ' ' || c == '\t' || c == '\r' || c == '\n';
    }
  }

  /** Processing resolves a call handler's function, unless it is empty or hex, and nothing else of the filter. */
  lemma FunctionIsResolved(content: Content, types: seq<CustomType>)
    ensures Resolved(CallKind, content, types).topics == content.topics
    ensures Resolved(CallKind, content, types).func ==
            if content.func.Str? && |content.func.s| > 0 && !(|content.func.s| > 1 && content.func.s[0] == '0' && content.func.s[1] == 'x')
            then Str(Resolve(content.func.s, types)) else content.func
    ensures Resolved(BlockKind, content, types) == content
  {
    if content.func.Str? && |content.func.s| > 1 {
      var s := content.func.s;
      assert s[..2] == "0x" <==> s[0] == '0' && s[1] == 'x';
    }
  }

  // ---------- The whole project ----------

  /** The custom types of a data source's ABI; none when it has no ABI or its ABI cannot be read. */
  datatype Source = Source(types: Option<seq<CustomType>>, handlers: seq<HandlerFilter>)

  /** One handler processed with one data source's types. Manifest anchors may share a handler between sources. */
  datatype Visit = Visit(handler: HandlerFilter, types: seq<CustomType>)

  function VisitsTo(handlers: seq<HandlerFilter>, types: seq<CustomType>): seq<Visit> {
    seq(|handlers|, i requires 0 <= i < |handlers| => Visit(handlers[i], types))
  }

  function VisitsOf(source: Source): seq<Visit> {
    if source.types.None? || source.types.value == [] then [] else VisitsTo(source.handlers, source.types.value)
  }

  function Visits(sources: seq<Source>): seq<Visit> {
    if sources == [] then [] else Visits(sources[..|sources| - 1]) + VisitsOf(sources[|sources| - 1])
  }

  /** What the visits to a handler make of its filter, one after the other. */
  function After(f: HandlerFilter, content: Content, visits: seq<Visit>): Content {
    if visits == [] then content
    else
      var before := After(f, content, visits[..|visits| - 1]);
      var last := visits[|visits| - 1];
      if last.handler == f then Resolved(f.kind, before, last.types) else before
  }

  lemma {:induction false} AfterConcat(f: HandlerFilter, content: Content, a: seq<Visit>, b: seq<Visit>)
    ensures After(f, content, a + b) == After(f, After(f, content, a), b)
  {
    if b == [] {
      assert a + b == a;
    } else {
      assert (a + b)[..|a + b| - 1] == a + b[..|b| - 1];
      AfterConcat(f, content, a, b[..|b| - 1]);
    }
  }

  lemma {:induction false} UnvisitedIsKept(f: HandlerFilter, content: Content, visits: seq<Visit>)
    requires forall v :: v in visits ==> v.handler != f
    ensures After(f, content, visits) == content
  {
    if visits != [] {
      UnvisitedIsKept(f, content, visits[..|visits| - 1]);
      assert visits[|visits| - 1] in visits;
    }
  }

  lemma AfterSource(f: HandlerFilter, content: Content, before: seq<Source>, source: Source)
    ensures After(f, content, Visits(before + [source])) ==
            if f in source.handlers then After(f, After(f, content, Visits(before)), VisitsOf(source))
            else After(f, content, Visits(before))
  {
    assert (before + [source])[..|before|] == before;
    AfterConcat(f, content, Visits(before), VisitsOf(source));
    if f !in source.handlers {
      UnvisitedIsKept(f, After(f, content, Visits(before)), VisitsOf(source));
    }
  }

  method ProcessHandlers(handlers: seq<HandlerFilter>, types: seq<CustomType>)
    modifies set f | f in handlers
    ensures forall f :: f in handlers ==> f.Filter() == After(f, old(f.Filter()), VisitsTo(handlers, types))
  {
    for i := 0 to |handlers|
      invariant forall f :: f in handlers ==> f.Filter() == After(f, old(f.Filter()), VisitsTo(handlers[..i], types))
    {
      var visits := VisitsTo(handlers[..i + 1], types);
      assert visits[..i] == VisitsTo(handlers[..i], types) && visits[i] == Visit(handlers[i], types);
      handlers[i].ProcessEventHandlerFilters(types);
      handlers[i].ProcessTransactionHandlerFilters(types);
    }
    assert handlers[..|handlers|] == handlers;
  }

  /** Every filter ends up as the visits to its handler leave it, in project order. */
  method ResolveTopicFiltersInProject(sources: seq<Source>)
    modifies set source, f | source in sources && f in source.handlers :: f
    ensures forall source, f :: source in sources && f in source.handlers ==>
              f.Filter() == After(f, old(f.Filter()), Visits(sources))
  {
    ghost var all := set source, f | source in sources && f in source.handlers :: f;
    for n := 0 to |sources|
      invariant forall f :: f in all ==> f.Filter() == After(f, old(f.Filter()), Visits(sources[..n]))
    {
      var source := sources[n];
      assert sources[..n + 1] == sources[..n] + [source];
      assert source in sources;
      forall f | f in all
        ensures After(f, old(f.Filter()), Visits(sources[..n + 1])) ==
                if f in source.handlers then After(f, f.Filter(), VisitsOf(source)) else f.Filter()
      {
        AfterSource(f, old(f.Filter()), sources[..n], source);
      }
      if source.types.Some? && source.types.value != [] {
        ProcessHandlers(source.handlers, source.types.value);
      }
    }
    assert sources[..|sources|] == sources;
  }

  // ---------- Loading again ----------

  /** Processing a handler again with the same types changes nothing; topics after the first never change. */
  lemma ProcessingTwiceIsProcessingOnce(kind: Kind, content: Content, types: seq<CustomType>)
    requires forall s :: Settles(s, types)
    ensures Resolved(kind, Resolved(kind, content, types), types) == Resolved(kind, content, types)
    ensures |Resolved(kind, content, types).topics| == |content.topics|
    ensures forall i :: 1 <= i < |content.topics| ==> Resolved(kind, content, types).topics[i] == content.topics[i]
  {
    if content.topics != [] && content.topics[0].Str? {
      assert Settles(content.topics[0].s, types);
    }
    if content.func.Str? {
      assert Settles(content.func.s, types);
    }
  }

  /** Visits that all bring the same settling types amount to one. */
  lemma {:induction false} VisitsAmountToOne(f: HandlerFilter, content: Content, visits: seq<Visit>, types: seq<CustomType>)
    requires forall s :: Settles(s, types)
    requires forall v :: v in visits && v.handler == f ==> v.types == types
    ensures After(f, content, visits) ==
            if exists v :: v in visits && v.handler == f then Resolved(f.kind, content, types) else content
  {
    if visits != [] {
      var front, last := visits[..|visits| - 1], visits[|visits| - 1];
      assert forall v :: v in visits <==> v in front || v == last;
      VisitsAmountToOne(f, content, front, types);
      ProcessingTwiceIsProcessingOnce(f.kind, content, types);
    }
  }

  /** The handler's data sources all have the same custom types, as they do when no handler is shared. */
  ghost predicate HasTypes(f: HandlerFilter, sources: seq<Source>, types: seq<CustomType>) {
    forall source :: source in sources && f in source.handlers && source.types.Some? && source.types.value != [] ==>
      source.types.value == types
  }

  lemma {:induction false} VisitsHaveTypes(f: HandlerFilter, sources: seq<Source>, types: seq<CustomType>)
    requires HasTypes(f, sources, types)
    ensures forall v :: v in Visits(sources) && v.handler == f ==> v.types == types
  {
    if sources != [] {
      var front, last := sources[..|sources| - 1], sources[|sources| - 1];
      assert sources == front + [last];
      VisitsHaveTypes(f, front, types);
      assert forall v :: v in Visits(sources) <==> v in Visits(front) || v in VisitsOf(last);
    }
  }

  /** The handler is listed by a data source that has custom types. */
  ghost predicate IsProcessed(f: HandlerFilter, sources: seq<Source>) {
    exists source :: source in sources && f in source.handlers && source.types.Some? && source.types.value != []
  }

  lemma {:induction false} VisitedIff(f: HandlerFilter, sources: seq<Source>)
    ensures (exists v :: v in Visits(sources) && v.handler == f) <==> IsProcessed(f, sources)
  {
    if sources != [] {
      var front, last := sources[..|sources| - 1], sources[|sources| - 1];
      assert sources == front + [last];
      VisitedIff(f, front);
      assert forall v :: v in Visits(sources) <==> v in Visits(front) || v in VisitsOf(last);
      if last.types.Some? && last.types.value != [] {
        if i :| 0 <= i < |last.handlers| && last.handlers[i] == f {
          assert VisitsOf(last)[i] == Visit(f, last.types.value);
        }
      }
    }
  }

  /**
   * Loading a project resolves every filter whose handler some data source with custom types lists, with
   * these types, however often it is listed, and leaves all others as they are.
   */
  lemma LoadingResolves(f: HandlerFilter, content: Content, sources: seq<Source>, types: seq<CustomType>)
    requires HasTypes(f, sources, types) && forall s :: Settles(s, types)
    ensures After(f, content, Visits(sources)) == if IsProcessed(f, sources) then Resolved(f.kind, content, types) else content
  {
    VisitsHaveTypes(f, sources, types);
    VisitsAmountToOne(f, content, Visits(sources), types);
    VisitedIff(f, sources);
  }

  /** Loading a project again changes no filter whose handler has one set of types, if these settle. */
  lemma LoadingTwiceIsLoadingOnce(f: HandlerFilter, content: Content, sources: seq<Source>, types: seq<CustomType>)
    requires HasTypes(f, sources, types) && forall s :: Settles(s, types)
    ensures After(f, After(f, content, Visits(sources)), Visits(sources)) == After(f, content, Visits(sources))
  {
    var visits := Visits(sources);
    VisitsHaveTypes(f, sources, types);
    VisitsAmountToOne(f, content, visits, types);
    VisitsAmountToOne(f, After(f, content, visits), visits, types);
    ProcessingTwiceIsProcessingOnce(f.kind, content, types);
  }
}
