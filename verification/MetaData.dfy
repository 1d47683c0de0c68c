/**
Block meta-data (granary/metadata.cc): one part for each registered description. A description
may say how to compare its parts (indexable meta-data) or whether two of them unify.
*/
module MetaData {
  import opened Options

  // The contents of one part, as a number; of the part of AppMetaData, the start pc.
  type Part = nat

  // In the order of their codes: worse ones are larger.
  datatype Status = Accept | Adapt | Reject

  datatype Description = Description(equals: Option<(Part, Part) -> bool>, canUnify: Option<(Part, Part) -> Status>)

  datatype Meta = Meta(address: nat, parts: seq<Part>)

  const APP_META_DATA := Description(Some((a: Part, b: Part) => a == b), None)
  const MUTABLE_META_DATA := Description(None, None)

  ghost predicate ComparesStartPC(d: Description) {
    d.equals.Some? && forall a, b :: d.equals.value(a, b) <==> a == b
  }

  // What InitMetaData registers, and then the tools.
  function Registered(tools: seq<Description>): (r: seq<Description>)
    ensures |r| > 0 && ComparesStartPC(r[0])
  {
    [APP_META_DATA, MUTABLE_META_DATA, MUTABLE_META_DATA] + tools
  }

  ghost predicate IsMeta(descs: seq<Description>, m: Meta) {
    |m.parts| == |descs| && |descs| > 0 && ComparesStartPC(descs[0])
  }

  function StartPC(descs: seq<Description>, m: Meta): nat
    requires IsMeta(descs, m)
  {
    m.parts[0]
  }

  predicate PartEquals(d: Description, a: Part, b: Part) {
    d.equals.Some? ==> d.equals.value(a, b)
  }

  function PartUnifies(d: Description, a: Part, b: Part): Status {
    if d.canUnify.Some? then d.canUnify.value(a, b) else Accept
  }

  // All indexable parts are equal.
  predicate Equal(descs: seq<Description>, a: Meta, b: Meta)
    requires IsMeta(descs, a) && IsMeta(descs, b)
  {
    forall i | 0 <= i < |descs| :: PartEquals(descs[i], a.parts[i], b.parts[i])
  }

  predicate NotWorse(s: Status, t: Status) {
    s.Accept? || t.Reject? || s == t
  }

  function Worse(s: Status, t: Status): Status {
    if NotWorse(s, t) then t else s
  }

  // The worst status among the first `n` unifiable parts.
  function WorstOf(descs: seq<Description>, a: Meta, b: Meta, n: nat): Status
    requires IsMeta(descs, a) && IsMeta(descs, b) && n <= |descs|
  {
    if n == 0 then Accept
    else Worse(WorstOf(descs, a, b, n - 1), PartUnifies(descs[n - 1], a.parts[n - 1], b.parts[n - 1]))
  }

  function Unify(descs: seq<Description>, a: Meta, b: Meta): Status
    requires IsMeta(descs, a) && IsMeta(descs, b)
  {
    WorstOf(descs, a, b, |descs|)
  }

  // Two blocks unify as well as their worst part: no better, and no worse.
  lemma {:induction false} WorstIsAttained(descs: seq<Description>, a: Meta, b: Meta, n: nat)
    requires IsMeta(descs, a) && IsMeta(descs, b) && n <= |descs|
    ensures forall i | 0 <= i < n :: NotWorse(PartUnifies(descs[i], a.parts[i], b.parts[i]), WorstOf(descs, a, b, n))
    ensures WorstOf(descs, a, b, n) == Accept
            || exists i :: 0 <= i < n && PartUnifies(descs[i], a.parts[i], b.parts[i]) == WorstOf(descs, a, b, n)
  {
    if n > 0 {
      WorstIsAttained(descs, a, b, n - 1);
    }
  }

  // No registered description is unifiable.
  predicate NoneUnifiable(descs: seq<Description>) {
    forall i | 0 <= i < |descs| :: descs[i].canUnify.None?
  }

  lemma {:induction false} NothingToUnify(descs: seq<Description>, a: Meta, b: Meta)
    requires IsMeta(descs, a) && IsMeta(descs, b) && NoneUnifiable(descs)
    ensures Unify(descs, a, b) == Accept
  {
    WorstIsAttained(descs, a, b, |descs|);
  }

  method Equals(descs: seq<Description>, a: Meta, b: Meta) returns (r: bool)
    requires IsMeta(descs, a) && IsMeta(descs, b)
    ensures r == Equal(descs, a, b)
  {
    for i := 0 to |descs|
      invariant forall k | 0 <= k < i :: PartEquals(descs[k], a.parts[k], b.parts[k])
    {
      if descs[i].equals.None? {
        continue;
      }
      if !descs[i].equals.value(a.parts[i], b.parts[i]) {
        return false;
      }
    }
    r := true;
  }

  method CanUnifyWith(descs: seq<Description>, a: Meta, b: Meta) returns (s: Status)
    requires IsMeta(descs, a) && IsMeta(descs, b)
    ensures s == Unify(descs, a, b)
  {
    s := Accept;
    for i := 0 to |descs|
      invariant s == WorstOf(descs, a, b, i)
    {
      if descs[i].canUnify.None? {
        continue;
      }
      s := Worse(s, descs[i].canUnify.value(a.parts[i], b.parts[i]));
    }
  }
}
