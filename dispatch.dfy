/**
  Apply and ApplyOne of tago.go: run the action registered for an
  instruction once for every field name stored under it. The actions are
  callbacks the model cannot see, so a run is described by the sequence of
  calls it makes.
*/
module Dispatch {
  import opened Model
  import opened Index

  /** One invocation of the action registered for `instruction`, with `field`. */
  datatype Call = Call(instruction: Instruction, field: FieldName)

  /** Distinct elements, as the keys of a Go map are. */
  predicate NoDuplicates(order: seq<Instruction>)
  {
    forall a, b :: 0 <= a < b < |order| ==> order[a] != order[b]
  }

  /** The calls to the action of `instruction`, one per name of `fields`, in order. */
  function CallsFor(instruction: Instruction, fields: seq<FieldName>): seq<Call>
    decreases |fields|
  {
    if fields == [] then [] else
      CallsFor(instruction, fields[..|fields| - 1]) + [Call(instruction, fields[|fields| - 1])]
  }

  /** The calls Apply makes when the mapping's instructions are visited in `order`. */
  function ApplySpec(instructions: IndexMap, order: seq<Instruction>): seq<Call>
    decreases |order|
  {
    if order == [] then [] else
      var last := order[|order| - 1];
      ApplySpec(instructions, order[..|order| - 1]) + CallsFor(last, Lookup(instructions, last))
  }

  /** The names the action of `instruction` received in `trace`, in order. */
  function FieldsOf(trace: seq<Call>, instruction: Instruction): seq<FieldName>
    decreases |trace|
  {
    if trace == [] then [] else
      var last := trace[|trace| - 1];
      FieldsOf(trace[..|trace| - 1], instruction) + (if last.instruction == instruction then [last.field] else [])
  }

  lemma {:induction false} FieldsOfAppend(a: seq<Call>, b: seq<Call>, instruction: Instruction)
    ensures FieldsOf(a + b, instruction) == FieldsOf(a, instruction) + FieldsOf(b, instruction)
    decreases |b|
  {
    if b == [] {
      assert a + b == a;
    } else {
      var init := b[..|b| - 1];
      assert (a + b)[..|a + b| - 1] == a + init;
      FieldsOfAppend(a, init, instruction);
    }
  }

  /** The action of `instruction` receives `fields`; every other action nothing. */
  lemma {:induction false} FieldsOfCalls(instruction: Instruction, fields: seq<FieldName>, other: Instruction)
    ensures FieldsOf(CallsFor(instruction, fields), other) == (if other == instruction then fields else [])
    decreases |fields|
  {
    if fields != [] {
      var init := fields[..|fields| - 1];
      FieldsOfCalls(instruction, init, other);
      FieldsOfAppend(CallsFor(instruction, init), [Call(instruction, fields[|fields| - 1])], other);
      assert [Call(instruction, fields[|fields| - 1])][..0] == [];
      assert init + [fields[|fields| - 1]] == fields;
    }
  }

  /**
    What Apply promises: the action registered for an instruction is called
    once for every name stored under it, in the stored order; an instruction
    that is not a key, or has no action, causes no call.
  */
  lemma {:induction false} ApplyProjection(instructions: IndexMap, order: seq<Instruction>, instruction: Instruction)
    requires NoDuplicates(order)
    ensures FieldsOf(ApplySpec(instructions, order), instruction)
         == (if instruction in order then Lookup(instructions, instruction) else [])
    decreases |order|
  {
    if order != [] {
      ApplyProjection(instructions, order[..|order| - 1], instruction);
      ProjectionStep(instructions, order, instruction);
    }
  }

  lemma {:induction false} ProjectionStep(instructions: IndexMap, order: seq<Instruction>, instruction: Instruction)
    requires order != [] && NoDuplicates(order)
    requires FieldsOf(ApplySpec(instructions, order[..|order| - 1]), instruction)
          == (if instruction in order[..|order| - 1] then Lookup(instructions, instruction) else [])
    ensures FieldsOf(ApplySpec(instructions, order), instruction)
         == (if instruction in order then Lookup(instructions, instruction) else [])
  {
    var init, last := order[..|order| - 1], order[|order| - 1];
    var before, calls := ApplySpec(instructions, init), CallsFor(last, Lookup(instructions, last));
    assert ApplySpec(instructions, order) == before + calls;
    FieldsOfAppend(before, calls, instruction);
    FieldsOfCalls(last, Lookup(instructions, last), instruction);
    LastIsNew(order, instruction);
  }

  /** An element of distinct elements is the last one or occurs before it, not both. */
  lemma LastIsNew(order: seq<Instruction>, x: Instruction)
    requires order != [] && NoDuplicates(order)
    ensures x in order <==> x in order[..|order| - 1] || x == order[|order| - 1]
    ensures x == order[|order| - 1] ==> x !in order[..|order| - 1]
  {
    var init := order[..|order| - 1];
    assert order == init + [order[|order| - 1]];
    forall a | 0 <= a < |init| ensures init[a] != order[|order| - 1] {
      assert init[a] == order[a];
    }
  }

  /** The order Go happens to iterate the mapping in changes no action's calls. */
  lemma ApplyOrderIrrelevant(instructions: IndexMap, order1: seq<Instruction>, order2: seq<Instruction>, instruction: Instruction)
    requires NoDuplicates(order1) && NoDuplicates(order2)
    requires forall x :: x in order1 <==> x in order2
    ensures FieldsOf(ApplySpec(instructions, order1), instruction) == FieldsOf(ApplySpec(instructions, order2), instruction)
  {
    ApplyProjection(instructions, order1, instruction);
    ApplyProjection(instructions, order2, instruction);
  }

  /** Every call Apply makes is for a mapped instruction and a name stored under it. */
  lemma {:induction false} ApplyCallsAreStored(instructions: IndexMap, order: seq<Instruction>, k: nat)
    requires k < |ApplySpec(instructions, order)|
    ensures ApplySpec(instructions, order)[k].instruction in order
    ensures ApplySpec(instructions, order)[k].instruction in instructions
    ensures ApplySpec(instructions, order)[k].field in instructions[ApplySpec(instructions, order)[k].instruction]
    decreases |order|
  {
    var init, last := order[..|order| - 1], order[|order| - 1];
    var before := ApplySpec(instructions, init);
    if k < |before| {
      ApplyCallsAreStored(instructions, init, k);
    } else {
      CallAt(last, Lookup(instructions, last), k - |before|);
    }
  }

  lemma {:induction false} CallAt(instruction: Instruction, fields: seq<FieldName>, k: nat)
    requires k < |CallsFor(instruction, fields)|
    ensures |CallsFor(instruction, fields)| == |fields|
    ensures CallsFor(instruction, fields)[k] == Call(instruction, fields[k])
    decreases |fields|
  {
    CallsForLength(instruction, fields);
    if k < |fields| - 1 {
      CallAt(instruction, fields[..|fields| - 1], k);
    }
  }

  lemma {:induction false} CallsForLength(instruction: Instruction, fields: seq<FieldName>)
    ensures |CallsFor(instruction, fields)| == |fields|
    decreases |fields|
  {
    if fields != [] {
      CallsForLength(instruction, fields[..|fields| - 1]);
    }
  }

  /** ApplyOne: the names the action is called with, one call per stored name, none when the instruction is absent. */
  method ApplyOne(instructionToCheck: Instruction, instructions: IndexMap) returns (calls: seq<FieldName>)
    ensures calls == Lookup(instructions, instructionToCheck)
  {
    calls := [];
    if instructionToCheck in instructions {
      var fields := instructions[instructionToCheck];
      var j := 0;
      while j < |fields|
        invariant 0 <= j <= |fields|
        invariant calls == fields[..j]
      {
        calls := calls + [fields[j]];
        assert fields[..j + 1] == fields[..j] + [fields[j]];
        j := j + 1;
      }
      assert fields[..j] == fields;
    }
  }

  /**
    Apply: for each instruction of the mapping, visited in `order` (the keys
    of the mapping, in Go's iteration order), call its action for every
    name stored under it.
  */
  method Apply(instructions: IndexMap, order: seq<Instruction>) returns (trace: seq<Call>)
    requires NoDuplicates(order)
    ensures trace == ApplySpec(instructions, order)
    ensures forall instruction :: FieldsOf(trace, instruction)
                                 == (if instruction in order then Lookup(instructions, instruction) else [])
  {
    trace := [];
    var n := 0;
    while n < |order|
      invariant 0 <= n <= |order|
      invariant trace == ApplySpec(instructions, order[..n])
    {
      var instruction := order[n];
      var calls := [];
      if instruction in instructions {
        var fields := instructions[instruction];
        var j := 0;
        while j < |fields|
          invariant 0 <= j <= |fields|
          invariant calls == CallsFor(instruction, fields[..j])
        {
          calls := calls + [Call(instruction, fields[j])];
          assert fields[..j + 1][..j] == fields[..j];
          j := j + 1;
        }
        assert fields[..j] == fields;
      }
      assert order[..n + 1][..n] == order[..n];
      trace := trace + calls;
      n := n + 1;
    }
    assert order[..n] == order;
    forall instruction ensures FieldsOf(trace, instruction)
                               == (if instruction in order then Lookup(instructions, instruction) else []) {
      ApplyProjection(instructions, order, instruction);
    }
  }
}
