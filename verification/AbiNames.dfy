/** Names of generated contract functions: inputsToArgs and the duplicate handling of prepareAbiJob (codegen-controller.ts). */
module AbiNames {
  import opened Js

  /** An ABI input, with or without a list of components. */
  datatype AbiInput = Plain(typ: string) | Struct(typ: string, components: seq<AbiInput>)

  datatype AbiInterface = AbiInterface(name: string, isFunction: bool, inputs: seq<AbiInput>)

  function JoinRest(parts: seq<string>): string {
    if parts == [] then "" else "," + parts[0] + JoinRest(parts[1..])
  }

  /** `join(',')`. */
  function Join(parts: seq<string>): string {
    if parts == [] then "" else parts[0] + JoinRest(parts[1..])
  }

  function Suffix(typ: string): string {
    if typ == "tuple[]" then "[]" else ""
  }

  function PrintInput(input: AbiInput): string
    decreases input, 1
  {
    match input
    case Plain(typ) => Lower(typ)
    case Struct(typ, components) =>
      InputsToArgs(components) + Suffix(typ)
  }

  function PrintAll(inputs: seq<AbiInput>): seq<string>
    decreases inputs, 0
  {
    if inputs == [] then [] else [PrintInput(inputs[0])] + PrintAll(inputs[1..])
  }

  function InputsToArgs(inputs: seq<AbiInput>): string
    decreases inputs, 2
  {
    "(" + Join(PrintAll(inputs)) + ")"
  }

  // ---------- What printing keeps ----------

  predicate Separator(c: char) {
    c == ',' || c == '(' || c == ')'
  }

  /** A type name that can be told from its surroundings: not empty, no comma or parenthesis. */
  predicate Atomic(typ: string) {
    typ != "" && forall i :: 0 <= i < |typ| ==> !Separator(typ[i])
  }

  predicate WellFormedInput(input: AbiInput)
    decreases input, 1
  {
    match input
    case Plain(typ) => Atomic(typ)
    case Struct(_, components) => WellFormed(components)
  }

  predicate WellFormed(inputs: seq<AbiInput>)
    decreases inputs, 0
  {
    forall i :: 0 <= i < |inputs| ==> WellFormedInput(inputs[i])
  }

  /** The input tree up to case, and with every struct read as either one tuple or a list of them. */
  function NormalInput(input: AbiInput): AbiInput
    decreases input, 1
  {
    match input
    case Plain(typ) => Plain(Lower(typ))
    case Struct(typ, components) => Struct(if typ == "tuple[]" then typ else "tuple", Normal(components))
  }

  function Normal(inputs: seq<AbiInput>): seq<AbiInput>
    decreases inputs, 0
  {
    if inputs == [] then [] else [NormalInput(inputs[0])] + Normal(inputs[1..])
  }

  /** Text that may follow a printed input: the end of its list, or the next input. */
  predicate Follows(rest: string) {
    rest != "" && (rest[0] == ',' || rest[0] == ')')
  }

  lemma LowerAtomic(typ: string)
    requires Atomic(typ)
    ensures Atomic(Lower(typ))
  {
  }

  /** An atomic name ends where a separator starts, so two that begin one text are the same name. */
  lemma {:induction false} AtomsAreDelimited(a: string, r: string, b: string, t: string)
    requires Atomic(a) && Atomic(b) && Follows(r) && Follows(t) && a + r == b + t
    ensures a == b && r == t
  {
    var text := a + r;
    assert forall i :: 0 <= i < |a| ==> text[i] == a[i];
    assert text[|a|] == r[0];
    assert text == b + t;
    assert forall i :: 0 <= i < |b| ==> text[i] == b[i];
    assert text[|b|] == t[0];
    assert a == (a + r)[..|a|] && b == (b + t)[..|b|];
    assert r == (a + r)[|a|..] && t == (b + t)[|b|..];
  }

  /** A printed input opens with a parenthesis exactly when it is a struct, and never with a closing one. */
  lemma FirstOfInput(x: AbiInput)
    requires WellFormedInput(x)
    ensures PrintInput(x) != "" && PrintInput(x)[0] != ')'
    ensures PrintInput(x)[0] == '(' <==> x.Struct?
  {
    if x.Plain? {
      LowerAtomic(x.typ);
    }
  }

  /** Printed inputs followed by the end of their list or by the next input begin with the inputs' first characters. */
  lemma SameKind(x: AbiInput, r: string, y: AbiInput, t: string)
    requires WellFormedInput(x) && WellFormedInput(y)
    requires PrintInput(x) + r == PrintInput(y) + t
    ensures x.Struct? <==> y.Struct?
  {
    FirstOfInput(x);
    FirstOfInput(y);
    assert (PrintInput(x) + r)[0] == PrintInput(x)[0] && (PrintInput(y) + t)[0] == PrintInput(y)[0];
  }

  lemma SuffixesAreDelimited(x: string, r: string, y: string, t: string)
    requires Follows(r) && Follows(t) && Suffix(x) + r == Suffix(y) + t
    ensures (x == "tuple[]" <==> y == "tuple[]") && r == t
  {
    var text := Suffix(x) + r;
    assert text[0] == if x == "tuple[]" then '[' else r[0];
    assert text == Suffix(y) + t;
    assert text[0] == if y == "tuple[]" then '[' else t[0];
    assert r == text[|Suffix(x)|..] && t == text[|Suffix(y)|..];
  }

  /**
   * Printed inputs parse back in one way: if two of them begin the same text, each followed by the end
   * of its list or by the next input, they are the same input up to normal form, and so is what follows.
   */
  lemma {:induction false} PrintedInputParses(x: AbiInput, r: string, y: AbiInput, t: string)
    requires WellFormedInput(x) && WellFormedInput(y) && Follows(r) && Follows(t)
    requires PrintInput(x) + r == PrintInput(y) + t
    ensures NormalInput(x) == NormalInput(y) && r == t
    decreases x, 1
  {
    SameKind(x, r, y, t);
    if x.Plain? {
      LowerAtomic(x.typ);
      LowerAtomic(y.typ);
      AtomsAreDelimited(Lower(x.typ), r, Lower(y.typ), t);
    } else {
      var px, py := InputsToArgs(x.components), InputsToArgs(y.components);
      assert px + (Suffix(x.typ) + r) == px + Suffix(x.typ) + r;
      assert py + (Suffix(y.typ) + t) == py + Suffix(y.typ) + t;
      PrintedListParses(x.components, Suffix(x.typ) + r, y.components, Suffix(y.typ) + t);
      SuffixesAreDelimited(x.typ, r, y.typ, t);
    }
  }

  /** What follows the first inputs of a list: the other inputs, the closing parenthesis, and the rest. */
  function ListTail(xs: seq<AbiInput>, r: string): string {
    JoinRest(PrintAll(xs)) + (")" + r)
  }

  lemma JoinUnfolds(xs: seq<AbiInput>)
    requires xs != []
    ensures Join(PrintAll(xs)) == PrintInput(xs[0]) + JoinRest(PrintAll(xs[1..]))
    ensures JoinRest(PrintAll(xs)) == "," + PrintInput(xs[0]) + JoinRest(PrintAll(xs[1..]))
  {
    assert PrintAll(xs)[0] == PrintInput(xs[0]) && PrintAll(xs)[1..] == PrintAll(xs[1..]);
  }

  lemma ListTailUnfolds(xs: seq<AbiInput>, r: string)
    ensures ListTail(xs, r) == if xs == [] then ")" + r else "," + (PrintInput(xs[0]) + ListTail(xs[1..], r))
    ensures Follows(ListTail(xs, r))
  {
    if xs != [] {
      JoinUnfolds(xs);
    }
  }

  lemma Regroup(p: string, q: string, r: string)
    ensures "(" + (p + q) + ")" + r == "(" + (p + (q + (")" + r)))
  {
  }

  lemma PrintedListUnfolds(xs: seq<AbiInput>, r: string)
    ensures xs == [] ==> InputsToArgs(xs) + r == "(" + (")" + r)
    ensures xs != [] ==> InputsToArgs(xs) + r == "(" + (PrintInput(xs[0]) + ListTail(xs[1..], r))
  {
    if xs == [] {
      Regroup("", "", r);
    } else {
      JoinUnfolds(xs);
      Regroup(PrintInput(xs[0]), JoinRest(PrintAll(xs[1..])), r);
    }
  }

  lemma {:induction false} PrintedListParses(xs: seq<AbiInput>, r: string, ys: seq<AbiInput>, t: string)
    requires WellFormed(xs) && WellFormed(ys)
    requires InputsToArgs(xs) + r == InputsToArgs(ys) + t
    ensures Normal(xs) == Normal(ys) && r == t
    decreases xs, 2
  {
    PrintedListUnfolds(xs, r);
    PrintedListUnfolds(ys, t);
    var restX := if xs == [] then ")" + r else PrintInput(xs[0]) + ListTail(xs[1..], r);
    var restY := if ys == [] then ")" + t else PrintInput(ys[0]) + ListTail(ys[1..], t);
    assert restX == ("(" + restX)[1..] && restY == ("(" + restY)[1..];
    OpensItsList(xs, r);
    OpensItsList(ys, t);
    if xs == [] {
      assert r == restX[1..] && t == restY[1..];
    } else {
      PrintedConsParses(xs, r, ys, t);
    }
  }

  /** A printed list closes at once only when it is empty. */
  lemma OpensItsList(xs: seq<AbiInput>, r: string)
    requires WellFormed(xs)
    ensures xs != [] ==> (PrintInput(xs[0]) + ListTail(xs[1..], r))[0] != ')'
  {
    if xs != [] {
      FirstOfInput(xs[0]);
    }
  }

  lemma {:induction false} PrintedConsParses(xs: seq<AbiInput>, r: string, ys: seq<AbiInput>, t: string)
    requires WellFormed(xs) && WellFormed(ys) && xs != [] && ys != []
    requires PrintInput(xs[0]) + ListTail(xs[1..], r) == PrintInput(ys[0]) + ListTail(ys[1..], t)
    ensures Normal(xs) == Normal(ys) && r == t
    decreases xs, 1
  {
    ListTailUnfolds(xs[1..], r);
    ListTailUnfolds(ys[1..], t);
    PrintedInputParses(xs[0], ListTail(xs[1..], r), ys[0], ListTail(ys[1..], t));
    PrintedTailParses(xs[1..], r, ys[1..], t);
  }

  lemma {:induction false} PrintedTailParses(xs: seq<AbiInput>, r: string, ys: seq<AbiInput>, t: string)
    requires WellFormed(xs) && WellFormed(ys) && ListTail(xs, r) == ListTail(ys, t)
    ensures Normal(xs) == Normal(ys) && r == t
    decreases xs, 2
  {
    ListTailUnfolds(xs, r);
    ListTailUnfolds(ys, t);
    assert ListTail(xs, r)[0] == if xs == [] then ')' else ',';
    assert ListTail(ys, t)[0] == if ys == [] then ')' else ',';
    if xs == [] {
      assert r == ListTail(xs, r)[1..] && t == ListTail(ys, t)[1..];
    } else {
      assert PrintInput(xs[0]) + ListTail(xs[1..], r) == ListTail(xs, r)[1..];
      assert PrintInput(ys[0]) + ListTail(ys[1..], t) == ListTail(ys, t)[1..];
      PrintedConsParses(xs, r, ys, t);
    }
  }

  lemma {:induction false} NormalInputPrintsTheSame(x: AbiInput)
    ensures PrintInput(NormalInput(x)) == PrintInput(x)
    decreases x, 1
  {
    match x
    case Plain(typ) => assert Lower(Lower(typ)) == Lower(typ);
    case Struct(_, components) => NormalPrintsTheSame(components);
  }

  lemma {:induction false} NormalPrintsTheSame(xs: seq<AbiInput>)
    ensures PrintAll(Normal(xs)) == PrintAll(xs)
    decreases xs, 0
  {
    if xs != [] {
      NormalInputPrintsTheSame(xs[0]);
      NormalPrintsTheSame(xs[1..]);
      assert Normal(xs)[1..] == Normal(xs[1..]);
    }
  }

  /**
   * Exactly what printing forgets: two input lists print alike if and only if they agree up to the case
   * of base types and up to which struct type other than a plain list of tuples they have.
   */
  lemma PrintingIsInjectiveUpToNormalForm(xs: seq<AbiInput>, ys: seq<AbiInput>)
    requires WellFormed(xs) && WellFormed(ys)
    ensures InputsToArgs(xs) == InputsToArgs(ys) <==> Normal(xs) == Normal(ys)
  {
    if InputsToArgs(xs) == InputsToArgs(ys) {
      PrintedListParses(xs, "", ys, "");
    }
    if Normal(xs) == Normal(ys) {
      NormalPrintsTheSame(xs);
      NormalPrintsTheSame(ys);
    }
  }

  predicate CanonicalInput(input: AbiInput)
    decreases input, 1
  {
    match input
    case Plain(typ) => Atomic(typ) && Lower(typ) == typ
    case Struct(typ, components) => (typ == "tuple" || typ == "tuple[]") && Canonical(components)
  }

  /** Inputs built from lower-case base types, tuples and lists of tuples. */
  predicate Canonical(inputs: seq<AbiInput>)
    decreases inputs, 0
  {
    inputs == [] || (CanonicalInput(inputs[0]) && Canonical(inputs[1..]))
  }

  lemma {:induction false} CanonicalInputIsNormal(x: AbiInput)
    requires CanonicalInput(x)
    ensures WellFormedInput(x) && NormalInput(x) == x
    decreases x, 1
  {
    if x.Struct? {
      CanonicalIsNormal(x.components);
    }
  }

  lemma {:induction false} CanonicalIsNormal(xs: seq<AbiInput>)
    requires Canonical(xs)
    ensures WellFormed(xs) && Normal(xs) == xs
    decreases xs, 0
  {
    if xs != [] {
      CanonicalInputIsNormal(xs[0]);
      CanonicalIsNormal(xs[1..]);
      assert xs == [xs[0]] + xs[1..];
    }
  }

  /** On canonical inputs printing is injective. */
  lemma PrintingIsInjective(xs: seq<AbiInput>, ys: seq<AbiInput>)
    requires Canonical(xs) && Canonical(ys)
    ensures InputsToArgs(xs) == InputsToArgs(ys) <==> xs == ys
  {
    CanonicalIsNormal(xs);
    CanonicalIsNormal(ys);
    PrintingIsInjectiveUpToNormalForm(xs, ys);
  }

  /** Fixed-size lists of structs print like a single struct. */
  lemma FixedListsOfStructsCollide()
    ensures var one, two := [Struct("tuple", [Plain("bool")])], [Struct("tuple[2]", [Plain("bool")])];
            WellFormed(one) && WellFormed(two) && one != two && InputsToArgs(one) == InputsToArgs(two)
  {
    var one, two := [Struct("tuple", [Plain("bool")])], [Struct("tuple[2]", [Plain("bool")])];
    assert WellFormed([Plain("bool")]);
    assert Normal(one) == [NormalInput(one[0])] + Normal([]) && Normal(two) == [NormalInput(two[0])] + Normal([]);
    PrintingIsInjectiveUpToNormalForm(one, two);
  }

  // ---------- Function names ----------

  function NamesOf(fs: seq<AbiInterface>): seq<string> {
    seq(|fs|, i requires 0 <= i < |fs| => fs[i].name)
  }

  /** `indexOf`: the first position of a name that occurs. */
  function IndexOf(names: seq<string>, name: string): nat {
    if names == [] || names[0] == name then 0 else 1 + IndexOf(names[1..], name)
  }

  predicate Overloaded(names: seq<string>, name: string) {
    exists i, j :: 0 <= i < j < |names| && names[i] == name && names[j] == name
  }

  function FunctionName(names: seq<string>, f: AbiInterface): string {
    if Overloaded(names, f.name) then f.name + InputsToArgs(f.inputs) else f.name
  }

  function FunctionsOf(abi: seq<AbiInterface>): seq<AbiInterface> {
    Filter(abi, (a: AbiInterface) => a.isFunction)
  }

  /** The function names emitted for an ABI, in order. */
  function FunctionNames(abi: seq<AbiInterface>): seq<string> {
    var fs := FunctionsOf(abi);
    seq(|fs|, i requires 0 <= i < |fs| => FunctionName(NamesOf(fs), fs[i]))
  }

  lemma {:induction false} IndexOfIsFirst(names: seq<string>, i: nat)
    requires i < |names|
    ensures IndexOf(names, names[i]) <= i && names[IndexOf(names, names[i])] == names[i]
  {
    if names[0] != names[i] {
      IndexOfIsFirst(names[1..], i - 1);
    }
  }

  /** The names whose position is not their first: those that occur twice. */
  method DuplicateNames(names: seq<string>) returns (duplicates: seq<string>)
    ensures forall name :: name in duplicates <==> Overloaded(names, name)
  {
    duplicates := [];
    for index := 0 to |names|
      invariant forall name :: name in duplicates <==>
                  exists i, j :: 0 <= i < j < index && names[i] == name && names[j] == name
    {
      IndexOfIsFirst(names, index);
      if IndexOf(names, names[index]) != index {
        duplicates := duplicates + [names[index]];
      } else {
        NothingBeforeFirst(names, index);
      }
    }
  }

  lemma {:induction false} NothingBeforeFirst(names: seq<string>, index: nat)
    requires index < |names| && IndexOf(names, names[index]) == index
    ensures forall i :: 0 <= i < index ==> names[i] != names[index]
  {
    if index > 0 {
      NothingBeforeFirst(names[1..], index - 1);
      forall i | 0 <= i < index ensures names[i] != names[index] {
        if i > 0 {
          assert names[1..][i - 1] == names[i];
        }
      }
    }
  }

  /** The part of `prepareAbiJob` that names functions. */
  method PrepareFunctionNames(abi: seq<AbiInterface>) returns (functionNames: seq<string>)
    ensures functionNames == FunctionNames(abi)
  {
    var duplicates := DuplicateNames(NamesOf(FunctionsOf(abi)));
    ghost var names := NamesOf(FunctionsOf(abi));
    functionNames := [];
    for i := 0 to |abi|
      invariant |functionNames| == |FunctionsOf(abi[..i])|
      invariant forall k :: 0 <= k < |functionNames| ==> functionNames[k] == FunctionName(names, FunctionsOf(abi[..i])[k])
    {
      OneMoreFunction(abi, i);
      if abi[i].isFunction {
        var functionName := abi[i].name;
        if abi[i].name in duplicates {
          functionName := abi[i].name + InputsToArgs(abi[i].inputs);
        }
        functionNames := functionNames + [functionName];
      }
    }
    assert abi[..|abi|] == abi;
  }

  lemma OneMoreFunction(abi: seq<AbiInterface>, i: nat)
    requires i < |abi|
    ensures FunctionsOf(abi[..i + 1]) == FunctionsOf(abi[..i]) + if abi[i].isFunction then [abi[i]] else []
  {
    FilterConcat(abi[..i], [abi[i]], (a: AbiInterface) => a.isFunction);
    assert [abi[i]][1..] == [];
    assert abi[..i + 1] == abi[..i] + [abi[i]];
  }

  predicate IsIdentifier(name: string) {
    forall i :: 0 <= i < |name| ==> name[i] != '('
  }

  /** An identifier is the text before the first parenthesis, so it can be read back from a printed name. */
  lemma IdentifierIsRecovered(a: string, r: string, b: string, t: string)
    requires IsIdentifier(a) && IsIdentifier(b)
    requires (r == "" || r[0] == '(') && (t == "" || t[0] == '(')
    requires a + r == b + t
    ensures a == b && r == t
  {
    var text := a + r;
    assert forall i :: 0 <= i < |a| ==> text[i] == a[i];
    assert r != "" ==> text[|a|] == r[0];
    assert text == b + t;
    assert forall i :: 0 <= i < |b| ==> text[i] == b[i];
    assert t != "" ==> text[|b|] == t[0];
    assert |a| == |b|;
    assert a == text[..|a|] && b == text[..|b|] && r == text[|a|..] && t == text[|b|..];
  }

  /**
   * Two functions of an ABI get the same name exactly when they have the same identifier and inputs that
   * agree up to normal form; so functions that differ there never collide.
   */
  lemma FunctionNamesCollideIff(abi: seq<AbiInterface>, i: nat, j: nat)
    requires i < j < |FunctionsOf(abi)|
    requires forall f :: f in FunctionsOf(abi) ==> IsIdentifier(f.name) && WellFormed(f.inputs)
    ensures FunctionNames(abi)[i] == FunctionNames(abi)[j] <==>
            && FunctionsOf(abi)[i].name == FunctionsOf(abi)[j].name
            && Normal(FunctionsOf(abi)[i].inputs) == Normal(FunctionsOf(abi)[j].inputs)
  {
    var fs := FunctionsOf(abi);
    var f, g := fs[i], fs[j];
    assert f in fs && g in fs;
    var names := NamesOf(fs);
    assert names[i] == f.name && names[j] == g.name;
    PrintingIsInjectiveUpToNormalForm(f.inputs, g.inputs);
    var r := if Overloaded(names, f.name) then InputsToArgs(f.inputs) else "";
    var t := if Overloaded(names, g.name) then InputsToArgs(g.inputs) else "";
    assert FunctionName(names, f) == f.name + r && FunctionName(names, g) == g.name + t;
    if FunctionNames(abi)[i] == FunctionNames(abi)[j] {
      IdentifierIsRecovered(f.name, r, g.name, t);
    }
  }

  /** For canonical ABIs: pairwise distinct (name, inputs) pairs give pairwise distinct function names. */
  lemma FunctionNamesAreDistinct(abi: seq<AbiInterface>)
    requires forall f :: f in FunctionsOf(abi) ==> IsIdentifier(f.name) && Canonical(f.inputs)
    requires forall i, j :: 0 <= i < j < |FunctionsOf(abi)| ==>
               FunctionsOf(abi)[i].name != FunctionsOf(abi)[j].name || FunctionsOf(abi)[i].inputs != FunctionsOf(abi)[j].inputs
    ensures forall i, j :: 0 <= i < j < |FunctionNames(abi)| ==> FunctionNames(abi)[i] != FunctionNames(abi)[j]
  {
    var fs := FunctionsOf(abi);
    forall f | f in fs ensures WellFormed(f.inputs) && Normal(f.inputs) == f.inputs {
      CanonicalIsNormal(f.inputs);
    }
    forall i, j | 0 <= i < j < |fs| ensures FunctionNames(abi)[i] != FunctionNames(abi)[j] {
      FunctionNamesCollideIff(abi, i, j);
      assert fs[i] in fs && fs[j] in fs;
    }
  }
}
