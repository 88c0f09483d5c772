/** Occurrence names as they appear in the descriptor. */
module Naming {
  import opened RobotTypes

  /** The name with every ':' removed (`name.replace(":", "")`). */
  function StripColons(name: string): (r: string)
    ensures ':' !in r
    ensures |r| <= |name|
    decreases |name|
  {
    if name == [] then []
    else if name[0] == ':' then StripColons(name[1..])
    else [name[0]] + StripColons(name[1..])
  }

  /** Python's `str(...)` of an optional name: a missing name prints as "None". */
  function PyStr(part: Option<string>): string
  {
    match part
    case Some(s) => s
    case None => "None"
  }

  /** Stripping works character by character: it distributes over concatenation,
      so the characters it keeps stay in their original order. */
  lemma {:induction false} StripColonsAppend(a: string, b: string)
    ensures StripColons(a + b) == StripColons(a) + StripColons(b)
    decreases |a|
  {
    if a != [] {
      assert (a + b)[1..] == a[1..] + b;
      StripColonsAppend(a[1..], b);
    } else {
      assert a + b == b;
    }
  }

  /** Every character other than ':' keeps its number of occurrences, and exactly the
      colons are dropped. */
  lemma {:induction false} StripColonsKeepsOthers(name: string)
    ensures forall c :: c != ':' ==> multiset(StripColons(name))[c] == multiset(name)[c]
    ensures |StripColons(name)| == |name| - multiset(name)[':']
    decreases |name|
  {
    if name != [] {
      StripColonsKeepsOthers(name[1..]);
      assert name == [name[0]] + name[1..];
      assert multiset(name) == multiset{name[0]} + multiset(name[1..]);
    }
  }

  /** A name without colons is left unchanged. */
  lemma {:induction false} StripColonsIdentity(name: string)
    requires ':' !in name
    ensures StripColons(name) == name
    decreases |name|
  {
    if name != [] {
      StripColonsIdentity(name[1..]);
      assert name == [name[0]] + name[1..];
    }
  }

  /** Stripping twice is stripping once. */
  lemma StripColonsIdempotent(name: string)
    ensures StripColons(StripColons(name)) == StripColons(name)
  {
  }
}
