/** A reader of printed inputs, written apart from the printer, and the round trip between the two. */
module AbiReading {
  import opened Js
  import opened AbiNames

  // ---------- The reader ----------

  /** The length of the text up to the next comma or parenthesis. */
  function NameLength(text: string): (n: nat)
    ensures n <= |text|
  {
    if text == "" || text[0] in ",()" then 0 else 1 + NameLength(text[1..])
  }

  /** A parenthesised list and what follows it. */
  function ReadList(text: string): (r: Option<(seq<AbiInput>, string)>)
    ensures r.Some? ==> |r.value.1| < |text|
    decreases |text|, 0
  {
    if text == "" || text[0] != '(' then None
    else if |text| > 1 && text[1] == ')' then Some(([], text[2..]))
    else ReadInputs(text[1..])
  }

  /** One input or more, separated by commas and closed by a parenthesis. */
  function ReadInputs(text: string): (r: Option<(seq<AbiInput>, string)>)
    ensures r.Some? ==> |r.value.1| < |text|
    decreases |text|, 2
  {
    match ReadInput(text)
    case None => None
    case Some((x, rest)) =>
      if rest == "" then None
      else if rest[0] == ')' then Some(([x], rest[1..]))
      else if rest[0] != ',' then None
      else
        match ReadInputs(rest[1..])
        case None => None
        case Some((xs, end)) => Some(([x] + xs, end))
  }

  /** A tuple, a list of tuples when brackets follow it, or a type name. */
  function ReadInput(text: string): (r: Option<(AbiInput, string)>)
    ensures r.Some? ==> |r.value.1| < |text|
    decreases |text|, 1
  {
    if text != "" && text[0] == '(' then
      match ReadList(text)
      case None => None
      case Some((xs, rest)) =>
        if |rest| >= 2 && rest[..2] == "[]" then Some((Struct("tuple[]", xs), rest[2..])) else Some((Struct("tuple", xs), rest))
    else
      var n := NameLength(text);
      if n == 0 then None else Some((Plain(text[..n]), text[n..]))
  }

  function Read(text: string): Option<seq<AbiInput>> {
    match ReadList(text)
    case Some((xs, rest)) => if rest == "" then Some(xs) else None
    case None => None
  }

  // ---------- Reading what was printed ----------

  lemma {:induction false} NameLengthOf(name: string, rest: string)
    requires (forall i :: 0 <= i < |name| ==> !Separator(name[i])) && Follows(rest)
    ensures NameLength(name + rest) == |name|
  {
    if name == "" {
      assert name + rest == rest;
    } else {
      assert (name + rest)[1..] == name[1..] + rest;
      NameLengthOf(name[1..], rest);
    }
  }

  lemma {:induction false} PrintedInputIsRead(x: AbiInput, rest: string)
    requires WellFormedInput(x) && Follows(rest)
    ensures ReadInput(PrintInput(x) + rest) == Some((NormalInput(x), rest))
    decreases x, 1
  {
    var text := PrintInput(x) + rest;
    FirstOfInput(x);
    assert text[0] == PrintInput(x)[0];
    if x.Plain? {
      LowerAtomic(x.typ);
      NameLengthOf(Lower(x.typ), rest);
      assert text[..|Lower(x.typ)|] == Lower(x.typ) && text[|Lower(x.typ)|..] == rest;
    } else {
      PrintedListIsRead(x.components, Suffix(x.typ) + rest);
      assert text == InputsToArgs(x.components) + (Suffix(x.typ) + rest);
      SuffixIsRead(x.typ, rest);
    }
  }

  lemma SuffixIsRead(typ: string, rest: string)
    requires Follows(rest)
    ensures var text := Suffix(typ) + rest;
            if typ == "tuple[]" then |text| >= 2 && text[..2] == "[]" && text[2..] == rest
            else text == rest && !(|text| >= 2 && text[..2] == "[]")
  {
    if typ != "tuple[]" {
      assert |rest| >= 2 ==> rest[..2][0] == rest[0] && "[]"[0] == '[';
    }
  }

  /** Printed lists are read back, whatever follows them. */
  lemma {:induction false} PrintedListIsRead(xs: seq<AbiInput>, rest: string)
    requires WellFormed(xs)
    ensures ReadList(InputsToArgs(xs) + rest) == Some((Normal(xs), rest))
    decreases xs, 2
  {
    PrintedListUnfolds(xs, rest);
    var text := InputsToArgs(xs) + rest;
    if xs == [] {
      assert text[0] == '(' && text[1] == ')' && text[2..] == rest;
    } else {
      var inner := PrintInput(xs[0]) + ListTail(xs[1..], rest);
      FirstOfInput(xs[0]);
      assert text[0] == '(' && text[1] == inner[0] == PrintInput(xs[0])[0] && text[1..] == inner;
      PrintedInputsAreRead(xs, rest);
    }
  }

  lemma {:induction false} PrintedInputsAreRead(xs: seq<AbiInput>, rest: string)
    requires WellFormed(xs) && xs != []
    ensures ReadInputs(PrintInput(xs[0]) + ListTail(xs[1..], rest)) == Some((Normal(xs), rest))
    decreases xs, 1
  {
    var tail := ListTail(xs[1..], rest);
    ListTailUnfolds(xs[1..], rest);
    PrintedInputIsRead(xs[0], tail);
    if xs[1..] == [] {
      assert tail[0] == ')' && tail[1..] == rest;
      assert Normal(xs) == [NormalInput(xs[0])] + Normal(xs[1..]) && Normal(xs[1..]) == [];
      assert Normal(xs) == [NormalInput(xs[0])];
    } else {
      var ys := xs[1..];
      assert tail[0] == ',' && tail[1..] == PrintInput(ys[0]) + ListTail(ys[1..], rest);
      PrintedInputsAreRead(ys, rest);
    }
  }

  /** Round trip: printed inputs are read back up to case and to struct types other than a list of tuples. */
  lemma ReadingUndoesPrinting(xs: seq<AbiInput>)
    requires WellFormed(xs)
    ensures Read(InputsToArgs(xs)) == Some(Normal(xs))
    ensures Canonical(xs) ==> Read(InputsToArgs(xs)) == Some(xs)
  {
    PrintedListIsRead(xs, "");
    assert InputsToArgs(xs) + "" == InputsToArgs(xs);
    if Canonical(xs) {
      CanonicalIsNormal(xs);
    }
  }

  // ---------- Emitted names ----------

  /**
   * The emitted function names, read back: the plain name where no other function has it, and otherwise
   * the name followed by a text that reads as the function's inputs.
   */
  lemma FunctionNamesReadBack(abi: seq<AbiInterface>, i: nat)
    requires i < |FunctionsOf(abi)| && WellFormed(FunctionsOf(abi)[i].inputs)
    ensures |FunctionNames(abi)| == |FunctionsOf(abi)|
    ensures var fs := FunctionsOf(abi);
            var f, emitted := fs[i], FunctionNames(abi)[i];
            if exists j :: 0 <= j < |fs| && j != i && fs[j].name == f.name then
              |f.name| <= |emitted| && emitted[..|f.name|] == f.name && Read(emitted[|f.name|..]) == Some(Normal(f.inputs))
            else emitted == f.name
  {
    var fs := FunctionsOf(abi);
    var names, f := NamesOf(fs), fs[i];
    assert forall j :: 0 <= j < |fs| ==> names[j] == fs[j].name;
    ReadingUndoesPrinting(f.inputs);
    assert (f.name + InputsToArgs(f.inputs))[|f.name|..] == InputsToArgs(f.inputs);
    if j :| 0 <= j < |fs| && j != i && fs[j].name == f.name {
      assert names[j] == f.name && names[i] == f.name;
      assert Overloaded(names, f.name) by {
        if j < i {
          assert names[j] == f.name && names[i] == f.name;
        }
      }
    }
  }
}
