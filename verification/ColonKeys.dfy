/** Keys made by joining identifiers with a colon, and when two of them come out the same. */
module ColonKeys {

  function Joined(a: string, b: string): string {
    a + ":" + b
  }

  /** One identifier continues the other with a colon. */
  predicate Confusable(a1: string, a2: string) {
    a1 + ":" <= a2 || a2 + ":" <= a1
  }

  lemma SharedIsConfusable(a1: string, b1: string, a2: string, b2: string)
    requires a1 != a2 && Joined(a1, b1) == Joined(a2, b2)
    ensures Confusable(a1, a2)
  {
    var k := Joined(a1, b1);
    assert k[..|a1|] == a1 && k[..|a2|] == a2;
    assert k[..|a1| + 1] == a1 + ":" && k[..|a2| + 1] == a2 + ":";
    if |a1| < |a2| {
      assert k[..|a2|][..|a1| + 1] == k[..|a1| + 1];
    } else if |a2| < |a1| {
      assert k[..|a1|][..|a2| + 1] == k[..|a2| + 1];
    }
  }

  lemma ContinuedIsShared(a1: string, a2: string, b2: string)
    requires a1 + ":" <= a2
    ensures Joined(a1, a2[|a1| + 1..] + ":" + b2) == Joined(a2, b2)
  {
    assert a2 == a1 + ":" + a2[|a1| + 1..];
  }

  /** Two different first parts can give the same key exactly when one continues the other with a colon. */
  lemma JoinedCollide(a1: string, a2: string)
    requires a1 != a2
    ensures (exists b1, b2 :: Joined(a1, b1) == Joined(a2, b2)) <==> Confusable(a1, a2)
  {
    if b1, b2 :| Joined(a1, b1) == Joined(a2, b2) {
      SharedIsConfusable(a1, b1, a2, b2);
    }
    if a1 + ":" <= a2 {
      ContinuedIsShared(a1, a2, "");
    } else if a2 + ":" <= a1 {
      ContinuedIsShared(a2, a1, "");
    }
  }

  /** Otherwise the key determines both parts; with the same first part it always does. */
  lemma JoinedDetermines(a1: string, b1: string, a2: string, b2: string)
    requires !Confusable(a1, a2)
    ensures Joined(a1, b1) == Joined(a2, b2) <==> a1 == a2 && b1 == b2
  {
    if Joined(a1, b1) == Joined(a2, b2) {
      if a1 != a2 {
        SharedIsConfusable(a1, b1, a2, b2);
      }
      assert Joined(a1, b1)[|a1| + 1..] == b1 && Joined(a2, b2)[|a2| + 1..] == b2;
    }
  }

  lemma ColonFree(a1: string, a2: string)
    requires ':' !in a1 && ':' !in a2
    ensures !Confusable(a1, a2)
  {
    assert (a1 + ":")[|a1|] == ':' && (a2 + ":")[|a2|] == ':';
  }
}
