/** Replacing custom type names in signatures, one name after the other (string.ts, project.ts). */
module CustomTypes {
  import opened Js

  type Name = s: string | s != "" witness "T"

  datatype CustomType = CustomType(name: Name, resolved: string)

  // ---------- Whole-word replacement ----------

  predicate IsWordChar(c: char) {
    'a' <= c <= 'z' || 'A' <= c <= 'Z' || '0' <= c <= '9' || c == '_'
  }

  /** The text starts with a word character. */
  predicate StartsInWord(s: string) {
    s != "" && IsWordChar(s[0])
  }

  /** `\b` on both sides of `name` at the start of `s`, when `inWord` tells what stands before it. */
  predicate WholeWordAt(inWord: bool, s: string, name: Name)
  {
    && |name| <= |s| && s[..|name|] == name
    && inWord != IsWordChar(s[0])
    && IsWordChar(name[|name| - 1]) != StartsInWord(s[|name|..])
  }

  /** `replace(/\bname\b/g, replacement)` on the rest `s` of a text. */
  function ReplaceFrom(inWord: bool, s: string, name: Name, replacement: string): string
    decreases |s|
  {
    if s == "" then ""
    else if WholeWordAt(inWord, s, name) then
      replacement + ReplaceFrom(IsWordChar(name[|name| - 1]), s[|name|..], name, replacement)
    else [s[0]] + ReplaceFrom(IsWordChar(s[0]), s[1..], name, replacement)
  }

  /** One name after the other, in the map's order. */
  function Resolve(s: string, types: seq<CustomType>): string
    decreases types
  {
    if types == [] then s else Resolve(ReplaceFrom(false, s, types[0].name, types[0].resolved), types[1..])
  }

  method ResolveCustomTypesInSignature(signature: string, types: seq<CustomType>) returns (resolvedSignature: string)
    ensures resolvedSignature == Resolve(signature, types)
  {
    resolvedSignature := signature;
    for i := 0 to |types|
      invariant Resolve(resolvedSignature, types[i..]) == Resolve(signature, types)
    {
      assert types[i..][0] == types[i] && types[i..][1..] == types[i + 1..];
      resolvedSignature := ReplaceFrom(false, resolvedSignature, types[i].name, types[i].resolved);
    }
  }

  // ---------- Substituting words all at once ----------

  /** The length of the word the text starts with. */
  function WordLength(s: string): nat {
    if StartsInWord(s) then 1 + WordLength(s[1..]) else 0
  }

  lemma {:induction false} WordLengthMeaning(s: string)
    ensures WordLength(s) <= |s|
    ensures forall i :: 0 <= i < WordLength(s) ==> IsWordChar(s[i])
    ensures !StartsInWord(s[WordLength(s)..])
    ensures StartsInWord(s) ==> WordLength(s) > 0
  {
    if StartsInWord(s) {
      WordLengthMeaning(s[1..]);
      assert s[WordLength(s)..] == s[1..][WordLength(s[1..])..];
    }
  }

  /** `f` applied to every maximal run of word characters, everything else kept. */
  function MapWords(s: string, f: string -> string): string
    decreases |s|
  {
    if s == "" then ""
    else if IsWordChar(s[0]) then
      WordLengthMeaning(s);
      f(s[..WordLength(s)]) + MapWords(s[WordLength(s)..], f)
    else [s[0]] + MapWords(s[1..], f)
  }

  /** The type a word stands for, or the word itself. */
  function Lookup(types: seq<CustomType>, word: string): string {
    if types == [] then word else if types[0].name == word then types[0].resolved else Lookup(types[1..], word)
  }

  /** Every whole word replaced at once. */
  function Substitute(s: string, types: seq<CustomType>): string {
    MapWords(s, w => Lookup(types, w))
  }

  predicate IsWord(s: string) {
    s != "" && forall i :: 0 <= i < |s| ==> IsWordChar(s[i])
  }

  ghost predicate DistinctWords(types: seq<CustomType>) {
    && (forall i :: 0 <= i < |types| ==> IsWord(types[i].name))
    && (forall i, j :: 0 <= i < j < |types| ==> types[i].name != types[j].name)
  }

  // ---------- Words and replacement ----------

  /** A word in front of a text that does not go on with a word character is its first word. */
  lemma {:induction false} WordLengthOf(w: string, rest: string)
    requires (forall i :: 0 <= i < |w| ==> IsWordChar(w[i])) && !StartsInWord(rest)
    ensures WordLength(w + rest) == |w|
  {
    if w == "" {
      assert w + rest == rest;
    } else {
      assert (w + rest)[1..] == w[1..] + rest;
      WordLengthOf(w[1..], rest);
    }
  }

  lemma MapWordsOfWord(w: string, rest: string, f: string -> string)
    requires IsWord(w) && !StartsInWord(rest)
    ensures MapWords(w + rest, f) == f(w) + MapWords(rest, f)
  {
    WordLengthOf(w, rest);
    assert (w + rest)[..|w|] == w && (w + rest)[|w|..] == rest;
  }

  lemma MapOneWord(w: string, f: string -> string)
    requires IsWord(w)
    ensures MapWords(w, f) == f(w)
  {
    assert w + "" == w;
    MapWordsOfWord(w, "", f);
  }

  function Swap(name: string, replacement: string, word: string): string {
    if word == name then replacement else word
  }

  lemma WholeWordIsFirstWord(s: string, name: Name)
    requires IsWord(name) && StartsInWord(s)
    ensures WordLength(s) <= |s|
    ensures WholeWordAt(false, s, name) <==> s[..WordLength(s)] == name
  {
    WordLengthMeaning(s);
    if WholeWordAt(false, s, name) {
      assert s == name + s[|name|..];
      WordLengthOf(name, s[|name|..]);
    }
  }

  /** One step of the replacement at the start of a word: the whole word is swapped, or passed over. */
  lemma ReplaceOneWord(s: string, name: Name, replacement: string)
    requires IsWord(name) && StartsInWord(s)
    ensures 0 < WordLength(s) <= |s|
    ensures ReplaceFrom(false, s, name, replacement) ==
            if s[..WordLength(s)] == name then replacement + ReplaceFrom(true, s[WordLength(s)..], name, replacement)
            else [s[0]] + ReplaceFrom(true, s[1..], name, replacement)
  {
    WordLengthMeaning(s);
    WholeWordIsFirstWord(s, name);
  }

  /** A word is its first character and the rest of the word. */
  lemma WordTail(s: string)
    requires StartsInWord(s)
    ensures WordLength(s) == 1 + WordLength(s[1..]) <= |s|
    ensures s[..WordLength(s)] == [s[0]] + s[1..][..WordLength(s[1..])]
    ensures s[WordLength(s)..] == s[1..][WordLength(s[1..])..]
  {
    WordLengthMeaning(s);
    WordLengthMeaning(s[1..]);
  }

  lemma MapFirstWord(s: string, f: string -> string)
    requires StartsInWord(s)
    ensures WordLength(s) <= |s|
    ensures MapWords(s, f) == f(s[..WordLength(s)]) + MapWords(s[WordLength(s)..], f)
  {
    WordLengthMeaning(s);
  }

  /** At a word boundary, replacing a name is replacing the words that equal it. */
  lemma {:induction false} ReplaceAtBoundary(s: string, name: Name, replacement: string)
    requires IsWord(name)
    ensures ReplaceFrom(false, s, name, replacement) == MapWords(s, w => Swap(name, replacement, w))
    decreases |s|, 3
  {
    if StartsInWord(s) {
      ReplaceFirstWord(s, name, replacement);
      MapFirstWord(s, w => Swap(name, replacement, w));
    } else if s != "" {
      ReplaceAtBoundary(s[1..], name, replacement);
    }
  }

  lemma {:induction false} ReplaceFirstWord(s: string, name: Name, replacement: string)
    requires IsWord(name) && StartsInWord(s)
    ensures WordLength(s) <= |s|
    ensures ReplaceFrom(false, s, name, replacement) ==
            Swap(name, replacement, s[..WordLength(s)]) + MapWords(s[WordLength(s)..], w => Swap(name, replacement, w))
    decreases |s|, 1
  {
    WordLengthMeaning(s);
    ReplaceOneWord(s, name, replacement);
    if s[..WordLength(s)] == name {
      ReplaceAfterWord(s[WordLength(s)..], name, replacement);
    } else {
      PassOtherWord(s, name, replacement);
    }
  }

  lemma {:induction false} PassOtherWord(s: string, name: Name, replacement: string)
    requires IsWord(name) && StartsInWord(s)
    ensures WordLength(s) <= |s|
    ensures [s[0]] + ReplaceFrom(true, s[1..], name, replacement) ==
            s[..WordLength(s)] + MapWords(s[WordLength(s)..], w => Swap(name, replacement, w))
    decreases |s|, 0
  {
    WordTail(s);
    ReplaceInWord(s[1..], name, replacement);
  }

  /** Where a word has just ended, replacing goes on as at a boundary. */
  lemma {:induction false} ReplaceAfterWord(rest: string, name: Name, replacement: string)
    requires IsWord(name) && !StartsInWord(rest)
    ensures ReplaceFrom(true, rest, name, replacement) == MapWords(rest, w => Swap(name, replacement, w))
    decreases |rest|, 2
  {
    ReplaceInWord(rest, name, replacement);
    assert WordLength(rest) == 0 && rest[..0] == "" && rest[0..] == rest;
  }

  /** Inside a word nothing is replaced until the word ends. */
  lemma {:induction false} ReplaceInWord(s: string, name: Name, replacement: string)
    requires IsWord(name)
    ensures WordLength(s) <= |s|
    ensures ReplaceFrom(true, s, name, replacement) ==
            s[..WordLength(s)] + MapWords(s[WordLength(s)..], w => Swap(name, replacement, w))
    decreases |s|, 1
  {
    if StartsInWord(s) {
      WordTail(s);
      ReplaceInWord(s[1..], name, replacement);
    } else {
      assert s[..0] == "" && s[0..] == s;
      if s != "" {
        assert s[..1][0] == s[0];
        ReplaceAtBoundary(s[1..], name, replacement);
      }
    }
  }

  lemma {:induction false} MapWordsSame(s: string, f: string -> string, g: string -> string)
    requires forall w :: IsWord(w) ==> f(w) == g(w)
    ensures MapWords(s, f) == MapWords(s, g)
    decreases |s|
  {
    if s != "" && IsWordChar(s[0]) {
      WordLengthMeaning(s);
      MapWordsSame(s[WordLength(s)..], f, g);
    } else if s != "" {
      MapWordsSame(s[1..], f, g);
    }
  }

  /** Words never run across the start of a text that starts outside a word. */
  lemma {:induction false} MapWordsConcat(a: string, b: string, f: string -> string)
    requires !StartsInWord(b)
    ensures MapWords(a + b, f) == MapWords(a, f) + MapWords(b, f)
    decreases |a|
  {
    if a == "" {
      assert a + b == b;
    } else if IsWordChar(a[0]) {
      WordLengthMeaning(a);
      var n := WordLength(a);
      var w, rest := a[..n], a[n..];
      assert a + b == w + (rest + b) && a == w + rest;
      MapWordsOfWord(w, rest + b, f);
      MapWordsOfWord(w, rest, f);
      MapWordsConcat(rest, b, f);
    } else {
      assert (a + b)[1..] == a[1..] + b;
      MapWordsConcat(a[1..], b, f);
    }
  }

  /** Mapping words twice maps each word's image: what is put in for a word never joins its neighbours. */
  lemma {:induction false} MapWordsCompose(s: string, f: string -> string, g: string -> string)
    ensures MapWords(MapWords(s, f), g) == MapWords(s, w => MapWords(f(w), g))
    decreases |s|
  {
    if s != "" && IsWordChar(s[0]) {
      WordLengthMeaning(s);
      var rest := s[WordLength(s)..];
      MapWordsCompose(rest, f, g);
      MapWordsConcat(f(s[..WordLength(s)]), MapWords(rest, f), g);
    } else if s != "" {
      MapWordsCompose(s[1..], f, g);
    }
  }

  lemma {:induction false} MapWordsIdentity(s: string, f: string -> string)
    requires forall w :: IsWord(w) ==> f(w) == w
    ensures MapWords(s, f) == s
    decreases |s|
  {
    if s != "" && IsWordChar(s[0]) {
      WordLengthMeaning(s);
      MapWordsIdentity(s[WordLength(s)..], f);
    } else if s != "" {
      MapWordsIdentity(s[1..], f);
    }
  }

  // ---------- Sequential replacement ----------

  lemma ReplaceWord(w: string, name: Name, replacement: string)
    requires IsWord(w) && IsWord(name)
    ensures ReplaceFrom(false, w, name, replacement) == Swap(name, replacement, w)
  {
    ReplaceAtBoundary(w, name, replacement);
    MapOneWord(w, x => Swap(name, replacement, x));
  }

  /** Replacing name after name works word by word. */
  lemma {:induction false} ResolveIsWordwise(s: string, types: seq<CustomType>)
    requires DistinctWords(types)
    ensures Resolve(s, types) == MapWords(s, w => Resolve(w, types))
    decreases types
  {
    if types == [] {
      MapWordsIdentity(s, w => Resolve(w, types));
    } else {
      var name, resolved, rest := types[0].name, types[0].resolved, types[1..];
      var swap, later := w => Swap(name, resolved, w), w => Resolve(w, rest);
      assert DistinctWords(rest);
      ReplaceAtBoundary(s, name, resolved);
      ResolveIsWordwise(MapWords(s, swap), rest);
      MapWordsCompose(s, swap, later);
      forall w | IsWord(w) ensures MapWords(swap(w), later) == Resolve(w, types) {
        ReplaceWord(w, name, resolved);
        ResolveIsWordwise(swap(w), rest);
      }
      MapWordsSame(s, w => MapWords(swap(w), later), w => Resolve(w, types));
    }
  }

  /** What becomes of one word: its type, then whatever later names make of that. */
  lemma {:induction false} ResolveWord(w: string, types: seq<CustomType>)
    requires DistinctWords(types) && IsWord(w)
    ensures forall i :: 0 <= i < |types| && types[i].name == w ==> Resolve(w, types) == Resolve(types[i].resolved, types[i + 1..])
    ensures (forall i :: 0 <= i < |types| ==> types[i].name != w) ==> Resolve(w, types) == w
    decreases types
  {
    if types != [] {
      var rest := types[1..];
      assert DistinctWords(rest);
      ReplaceWord(w, types[0].name, types[0].resolved);
      if types[0].name != w {
        ResolveWord(w, rest);
        forall i | 1 <= i < |types| ensures types[i] == rest[i - 1] && types[i + 1..] == rest[i - 1 + 1..] {
        }
      }
    }
  }

  lemma {:induction false} LookupMeaning(types: seq<CustomType>, w: string)
    requires DistinctWords(types)
    ensures forall i :: 0 <= i < |types| && types[i].name == w ==> Lookup(types, w) == types[i].resolved
    ensures (forall i :: 0 <= i < |types| ==> types[i].name != w) ==> Lookup(types, w) == w
    decreases types
  {
    if types != [] {
      assert DistinctWords(types[1..]);
      LookupMeaning(types[1..], w);
      forall i | 0 < i < |types| ensures types[i] == types[1..][i - 1] {
      }
    }
  }

  /** No type's resolution is changed by the names that come after it. */
  ghost predicate UndisturbedByLater(types: seq<CustomType>) {
    forall i :: 0 <= i < |types| ==> Resolve(types[i].resolved, types[i + 1..]) == types[i].resolved
  }

  /**
   * Replacing the names one by one equals substituting every whole word at once, for every signature,
   * exactly when no resolved type is changed by the names that come after it.
   */
  lemma SequentialIsSimultaneousIff(types: seq<CustomType>)
    requires DistinctWords(types)
    ensures (forall s :: Resolve(s, types) == Substitute(s, types)) <==> UndisturbedByLater(types)
  {
    if UndisturbedByLater(types) {
      forall s ensures Resolve(s, types) == Substitute(s, types) {
        SequentialIsSimultaneous(s, types);
      }
    }
    if forall s :: Resolve(s, types) == Substitute(s, types) {
      forall i | 0 <= i < |types| ensures Resolve(types[i].resolved, types[i + 1..]) == types[i].resolved {
        var w := types[i].name;
        ResolveWord(w, types);
        LookupMeaning(types, w);
        MapOneWord(w, x => Lookup(types, x));
        assert Resolve(w, types) == Substitute(w, types);
      }
    }
  }

  lemma SequentialIsSimultaneous(s: string, types: seq<CustomType>)
    requires DistinctWords(types) && UndisturbedByLater(types)
    ensures Resolve(s, types) == Substitute(s, types)
  {
    ResolveIsWordwise(s, types);
    forall w | IsWord(w) ensures Resolve(w, types) == Lookup(types, w) {
      ResolveWord(w, types);
      LookupMeaning(types, w);
    }
    MapWordsSame(s, w => Resolve(w, types), w => Lookup(types, w));
  }

  /** Substituting twice is substituting once, for every signature, exactly when no resolved type contains a name to substitute. */
  lemma SubstitutionIsIdempotentIff(types: seq<CustomType>)
    requires DistinctWords(types)
    ensures (forall s :: Substitute(Substitute(s, types), types) == Substitute(s, types)) <==>
            (forall i :: 0 <= i < |types| ==> Substitute(types[i].resolved, types) == types[i].resolved)
  {
    var f := w => Lookup(types, w);
    if forall i :: 0 <= i < |types| ==> Substitute(types[i].resolved, types) == types[i].resolved {
      forall s ensures Substitute(Substitute(s, types), types) == Substitute(s, types) {
        MapWordsCompose(s, f, f);
        forall w | IsWord(w) ensures MapWords(f(w), f) == f(w) {
          LookupMeaning(types, w);
          MapOneWord(w, f);
        }
        MapWordsSame(s, w => MapWords(f(w), f), f);
      }
    }
    if forall s :: Substitute(Substitute(s, types), types) == Substitute(s, types) {
      forall i | 0 <= i < |types| ensures Substitute(types[i].resolved, types) == types[i].resolved {
        LookupMeaning(types, types[i].name);
        MapOneWord(types[i].name, f);
        assert Substitute(Substitute(types[i].name, types), types) == Substitute(types[i].name, types);
      }
    }
  }

  /** What resolution makes of the type's name: its resolved type, with the later names replaced in it. */
  function Final(types: seq<CustomType>, i: nat): string
    requires i < |types|
  {
    Resolve(types[i].resolved, types[i + 1..])
  }

  /** Resolving the text again changes nothing. */
  predicate Settles(s: string, types: seq<CustomType>) {
    Resolve(Resolve(s, types), types) == Resolve(s, types)
  }

  /**
   * Resolving twice is resolving once, for every signature, exactly when resolving changes nothing in
   * what it makes of the names themselves.
   */
  lemma ResolutionIsIdempotentIff(types: seq<CustomType>)
    requires DistinctWords(types)
    ensures (forall s :: Settles(s, types)) <==>
            (forall i :: 0 <= i < |types| ==> Resolve(Final(types, i), types) == Final(types, i))
  {
    if forall i :: 0 <= i < |types| ==> Resolve(Final(types, i), types) == Final(types, i) {
      forall s ensures Settles(s, types) {
        SettledNamesSettleText(s, types);
      }
    }
    if forall s :: Settles(s, types) {
      forall i | 0 <= i < |types| ensures Resolve(Final(types, i), types) == Final(types, i) {
        ResolveWord(types[i].name, types);
        assert Settles(types[i].name, types);
      }
    }
  }

  lemma SettledNamesSettleText(s: string, types: seq<CustomType>)
    requires DistinctWords(types)
    requires forall i :: 0 <= i < |types| ==> Resolve(Final(types, i), types) == Final(types, i)
    ensures Settles(s, types)
  {
    var f := w => Resolve(w, types);
    ResolveIsWordwise(s, types);
    ResolveIsWordwise(Resolve(s, types), types);
    MapWordsCompose(s, f, f);
    forall w | IsWord(w) ensures MapWords(f(w), f) == f(w) {
      ResolveIsWordwise(f(w), types);
      ResolveWord(w, types);
      if i :| 0 <= i < |types| && types[i].name == w {
        assert f(w) == Final(types, i);
      }
    }
    MapWordsSame(s, w => MapWords(f(w), f), f);
  }

  // ---------- Any order of the names ----------

  /** The same types, in some order. */
  ghost predicate Reordered(a: seq<CustomType>, b: seq<CustomType>) {
    DistinctWords(a) && DistinctWords(b) && forall t :: t in a <==> t in b
  }

  /** Replacing one name leaves every other type's resolution as it is. */
  ghost predicate PairwiseUndisturbed(types: seq<CustomType>) {
    forall t, u :: t in types && u in types && t != u ==> ReplaceFrom(false, t.resolved, u.name, u.resolved) == t.resolved
  }

  ghost predicate OrderFree(types: seq<CustomType>) {
    forall s, other :: Reordered(types, other) ==> Resolve(s, other) == Resolve(s, types)
  }

  /**
   * In every order of the names every signature has the same result, exactly when replacing one name
   * leaves every other type's resolution as it is.
   */
  lemma OrderDoesNotMatterIff(types: seq<CustomType>)
    requires DistinctWords(types)
    ensures OrderFree(types) <==> PairwiseUndisturbed(types)
  {
    if PairwiseUndisturbed(types) {
      forall s, other | Reordered(types, other) ensures Resolve(s, other) == Resolve(s, types) {
        UndisturbedSameResult(s, types, other);
      }
    }
    if OrderFree(types) {
      forall t, u | t in types && u in types && t != u ensures ReplaceFrom(false, t.resolved, u.name, u.resolved) == t.resolved {
        var x, y := TwoOrders(types, t, u);
        assert Resolve(t.name, x) == Resolve(t.name, types);
        assert Resolve(t.name, y) == Resolve(t.name, types);
      }
    }
  }

  lemma UndisturbedSameResult(s: string, types: seq<CustomType>, other: seq<CustomType>)
    requires PairwiseUndisturbed(types) && Reordered(types, other)
    ensures Resolve(s, other) == Resolve(s, types)
  {
    UndisturbedInAnyOrder(types);
    UndisturbedInAnyOrder(other);
    SequentialIsSimultaneous(s, types);
    SequentialIsSimultaneous(s, other);
    forall w | IsWord(w) ensures Lookup(types, w) == Lookup(other, w) {
      SameLookup(types, other, w);
    }
    MapWordsSame(s, w => Lookup(types, w), w => Lookup(other, w));
  }

  lemma {:induction false} UndisturbedByAll(s: string, types: seq<CustomType>)
    requires forall u :: u in types ==> ReplaceFrom(false, s, u.name, u.resolved) == s
    ensures Resolve(s, types) == s
    decreases types
  {
    if types != [] {
      assert types[0] in types;
      UndisturbedByAll(s, types[1..]);
    }
  }

  lemma UndisturbedInAnyOrder(types: seq<CustomType>)
    requires DistinctWords(types) && PairwiseUndisturbed(types)
    ensures UndisturbedByLater(types)
  {
    forall i | 0 <= i < |types| ensures Resolve(types[i].resolved, types[i + 1..]) == types[i].resolved {
      var later := types[i + 1..];
      forall u | u in later ensures ReplaceFrom(false, types[i].resolved, u.name, u.resolved) == types[i].resolved {
        var j :| 0 <= j < |later| && later[j] == u;
        assert types[i + 1 + j] == u && types[i] != u;
      }
      UndisturbedByAll(types[i].resolved, later);
    }
  }

  lemma Removed(types: seq<CustomType>, i: nat)
    requires DistinctWords(types) && i < |types|
    ensures DistinctWords(types[..i] + types[i + 1..])
    ensures forall u :: u in types[..i] + types[i + 1..] <==> u in types && u != types[i]
  {
    var front := types[..i] + types[i + 1..];
    assert forall k :: 0 <= k < |front| ==> front[k] == if k < i then types[k] else types[k + 1];
    forall u ensures u in front <==> u in types && u != types[i] {
      if u in types && u != types[i] {
        var k :| 0 <= k < |types| && types[k] == u;
        assert front[if k < i then k else k - 1] == u;
      }
    }
  }

  lemma NamesDiffer(types: seq<CustomType>, t: CustomType, u: CustomType)
    requires DistinctWords(types) && t in types && u in types && t != u
    ensures t.name != u.name && IsWord(t.name) && IsWord(u.name)
  {
  }

  lemma Appended(front: seq<CustomType>, t: CustomType)
    requires DistinctWords(front) && IsWord(t.name) && forall u :: u in front ==> u.name != t.name
    ensures DistinctWords(front + [t])
  {
    var types := front + [t];
    assert forall k :: 0 <= k < |types| ==> if k < |front| then types[k] == front[k] && types[k] in front else types[k] == t;
  }

  lemma MovedLast(types: seq<CustomType>, t: CustomType) returns (front: seq<CustomType>)
    requires DistinctWords(types) && t in types
    ensures DistinctWords(front) && DistinctWords(front + [t])
    ensures forall u :: u in front <==> u in types && u != t
  {
    var i :| 0 <= i < |types| && types[i] == t;
    front := types[..i] + types[i + 1..];
    Removed(types, i);
    forall u | u in front ensures u.name != t.name {
      NamesDiffer(types, t, u);
    }
    Appended(front, t);
  }

  /** An order in which nothing comes after `t`, and one in which only `u` does. */
  lemma TwoOrders(types: seq<CustomType>, t: CustomType, u: CustomType) returns (x: seq<CustomType>, y: seq<CustomType>)
    requires DistinctWords(types) && t in types && u in types && t != u
    ensures Reordered(types, x) && Resolve(t.name, x) == t.resolved
    ensures Reordered(types, y) && Resolve(t.name, y) == ReplaceFrom(false, t.resolved, u.name, u.resolved)
  {
    var front := MovedLast(types, t);
    x := front + [t];
    EndsWith(front, t, []);
    assert front + [t] + [] == x;
    var rest := MovedLast(front, u);
    y := rest + [t] + [u];
    LastTwo(types, rest, t, u);
    EndsWith(rest, t, [u]);
    ResolveOne(t.resolved, u);
  }

  lemma LastTwo(types: seq<CustomType>, rest: seq<CustomType>, t: CustomType, u: CustomType)
    requires DistinctWords(types) && t in types && u in types && t != u
    requires DistinctWords(rest) && forall v :: v in rest <==> v in types && v != t && v != u
    ensures Reordered(types, rest + [t] + [u])
  {
    NamesDiffer(types, t, u);
    forall v | v in rest ensures v.name != t.name && v.name != u.name {
      NamesDiffer(types, t, v);
      NamesDiffer(types, u, v);
    }
    Appended(rest, t);
    Appended(rest + [t], u);
  }

  lemma EndsWith(front: seq<CustomType>, t: CustomType, after: seq<CustomType>)
    requires DistinctWords(front + [t] + after)
    ensures Resolve(t.name, front + [t] + after) == Resolve(t.resolved, after)
  {
    var types := front + [t] + after;
    assert types[|front|] == t && types[|front| + 1..] == after;
    ResolveWord(t.name, types);
  }

  // ---------- Types whose resolutions contain no names ----------

  /** `word` occurs in the text as a whole word. */
  predicate HasWord(s: string, word: string)
    decreases |s|
  {
    s != "" &&
    if IsWordChar(s[0]) then
      WordLengthMeaning(s);
      s[..WordLength(s)] == word || HasWord(s[WordLength(s)..], word)
    else HasWord(s[1..], word)
  }

  ghost predicate ResolutionsAreClosed(types: seq<CustomType>) {
    forall i, j :: 0 <= i < |types| && 0 <= j < |types| ==> !HasWord(types[i].resolved, types[j].name)
  }

  lemma {:induction false} SubstituteNothing(s: string, types: seq<CustomType>)
    requires DistinctWords(types)
    requires forall j :: 0 <= j < |types| ==> !HasWord(s, types[j].name)
    ensures Substitute(s, types) == s
    decreases |s|
  {
    if s != "" && IsWordChar(s[0]) {
      WordLengthMeaning(s);
      LookupMeaning(types, s[..WordLength(s)]);
      SubstituteNothing(s[WordLength(s)..], types);
    } else if s != "" {
      SubstituteNothing(s[1..], types);
    }
  }

  lemma {:induction false} ResolveNothing(s: string, types: seq<CustomType>)
    requires DistinctWords(types)
    requires forall j :: 0 <= j < |types| ==> !HasWord(s, types[j].name)
    ensures Resolve(s, types) == s
    decreases types
  {
    if types != [] {
      var first, rest := types[..1], types[1..];
      assert DistinctWords(first) && DistinctWords(rest);
      ReplaceAtBoundary(s, types[0].name, types[0].resolved);
      SubstituteNothing(s, first);
      assert first[1..] == [];
      forall w ensures Lookup(first, w) == Swap(types[0].name, types[0].resolved, w) {
        assert Lookup(first[1..], w) == w;
      }
      MapWordsSame(s, w => Swap(types[0].name, types[0].resolved, w), w => Lookup(first, w));
      forall j | 0 <= j < |rest| ensures !HasWord(s, rest[j].name) {
        assert rest[j] == types[j + 1];
      }
      ResolveNothing(s, rest);
    }
  }

  /**
   * With resolved types that contain none of the names, resolution is simultaneous substitution, gives
   * the same result in every order of the names, and changes nothing when run again.
   */
  lemma ResolutionIsStable(s: string, types: seq<CustomType>, reordered: seq<CustomType>)
    requires DistinctWords(types) && ResolutionsAreClosed(types)
    requires DistinctWords(reordered) && (forall t :: t in types <==> t in reordered)
    ensures Resolve(s, types) == Substitute(s, types)
    ensures Resolve(s, reordered) == Resolve(s, types)
    ensures Resolve(Resolve(s, types), types) == Resolve(s, types)
  {
    ClosedIsUndisturbed(types);
    SequentialIsSimultaneous(s, types);
    SequentialIsSimultaneous(Substitute(s, types), types);
    forall i | 0 <= i < |types| ensures Substitute(types[i].resolved, types) == types[i].resolved {
      SubstituteNothing(types[i].resolved, types);
    }
    SubstitutionIsIdempotentIff(types);
    forall i, j | 0 <= i < |reordered| && 0 <= j < |reordered| ensures !HasWord(reordered[i].resolved, reordered[j].name) {
      assert reordered[i] in types && reordered[j] in types;
    }
    ClosedIsUndisturbed(reordered);
    SequentialIsSimultaneous(s, reordered);
    forall w | IsWord(w) ensures Lookup(types, w) == Lookup(reordered, w) {
      SameLookup(types, reordered, w);
    }
    MapWordsSame(s, w => Lookup(types, w), w => Lookup(reordered, w));
  }

  lemma SameLookup(a: seq<CustomType>, b: seq<CustomType>, w: string)
    requires DistinctWords(a) && DistinctWords(b) && (forall t :: t in a <==> t in b)
    ensures Lookup(a, w) == Lookup(b, w)
  {
    LookupMeaning(a, w);
    LookupMeaning(b, w);
    if i :| 0 <= i < |a| && a[i].name == w {
      assert a[i] in b;
    }
    if j :| 0 <= j < |b| && b[j].name == w {
      assert b[j] in a;
    }
  }

  lemma ClosedIsUndisturbed(types: seq<CustomType>)
    requires DistinctWords(types) && ResolutionsAreClosed(types)
    ensures UndisturbedByLater(types)
  {
    forall i | 0 <= i < |types| ensures Resolve(types[i].resolved, types[i + 1..]) == types[i].resolved {
      var later := types[i + 1..];
      forall j | 0 <= j < |later| ensures !HasWord(types[i].resolved, later[j].name) {
        assert later[j] == types[i + 1 + j];
      }
      ResolveNothing(types[i].resolved, later);
    }
  }

  /** The event's or function's own name is a word like any other and is replaced too. */
  lemma OwnNameIsReplacedToo(ownName: string, arguments: string, types: seq<CustomType>)
    requires DistinctWords(types) && ResolutionsAreClosed(types) && IsWord(ownName)
    ensures Resolve(ownName + "(" + arguments, types) == Lookup(types, ownName) + "(" + Resolve(arguments, types)
  {
    var rest := "(" + arguments;
    assert ownName + "(" + arguments == ownName + rest;
    assert rest[1..] == arguments;
    ClosedIsUndisturbed(types);
    SequentialIsSimultaneous(ownName + rest, types);
    SequentialIsSimultaneous(arguments, types);
    MapWordsOfWord(ownName, rest, w => Lookup(types, w));
  }

  /** A resolved type that contains a later name is resolved further: here order matters. */
  lemma LaterNamesReachIntoEarlierTypes()
    ensures var a, b := CustomType("A", "(B)"), CustomType("B", "uint8");
            && DistinctWords([a, b]) && !UndisturbedByLater([a, b])
            && Resolve("A", [a, b]) == "(uint8)" && Resolve("A", [b, a]) == "(B)"
  {
    var a, b := CustomType("A", "(B)"), CustomType("B", "uint8");
    ResolveTwo("A", a, b);
    ResolveTwo("A", b, a);
    ReplaceWord("A", a.name, a.resolved);
    ReplaceWord("A", b.name, b.resolved);
    InnerNameIsReplaced();
    assert Resolve([a, b][0].resolved, [a, b][0 + 1..]) != [a, b][0].resolved by {
      assert [a, b][0 + 1..] == [b] && |"(uint8)"| != |"(B)"|;
      ResolveOne("(B)", b);
    }
  }

  lemma ResolveOne(s: string, t: CustomType)
    ensures Resolve(s, [t]) == ReplaceFrom(false, s, t.name, t.resolved)
  {
    assert [t][1..] == [];
  }

  lemma ResolveTwo(s: string, t: CustomType, u: CustomType)
    ensures Resolve(s, [t, u]) == ReplaceFrom(false, ReplaceFrom(false, s, t.name, t.resolved), u.name, u.resolved)
  {
    assert [t, u][1..] == [u];
    ResolveOne(ReplaceFrom(false, s, t.name, t.resolved), u);
  }

  lemma InnerNameIsReplaced()
    ensures ReplaceFrom(false, "(B)", "B", "uint8") == "(uint8)"
  {
    var s, t := "(B)", "B)";
    assert s[1..] == t && t[1..] == ")" && ")"[1..] == "";
    assert t[..1] == "B" && WholeWordAt(false, t, "B");
  }
}
