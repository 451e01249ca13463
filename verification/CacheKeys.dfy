/** The key under which the result of one agent, capability and input is cached, and when it identifies them. */
module CacheKeys {
  import opened ColonKeys
  import opened CoordinatorModel

  lemma KeyParts(agentId: string, capability: string, inputHash: string)
    ensures CacheKey(agentId, capability, inputHash) == "agent:" + Joined(Joined(agentId, capability), inputHash)
  {
    assert "agent:" + agentId + ":" + capability + ":" + inputHash
        == "agent:" + (agentId + ":" + capability + ":" + inputHash);
  }

  lemma SameKeySameRest(a1: string, c1: string, h1: string, a2: string, c2: string, h2: string)
    ensures CacheKey(a1, c1, h1) == CacheKey(a2, c2, h2)
       <==> Joined(Joined(a1, c1), h1) == Joined(Joined(a2, c2), h2)
  {
    KeyParts(a1, c1, h1);
    KeyParts(a2, c2, h2);
    var r1, r2 := Joined(Joined(a1, c1), h1), Joined(Joined(a2, c2), h2);
    assert ("agent:" + r1)[6..] == r1 && ("agent:" + r2)[6..] == r2;
  }

  /** An agent and a capability, as a request names them. */
  type Service = (string, string)

  /** Their part of the key. */
  function ServiceKey(s: Service): string {
    Joined(s.0, s.1)
  }

  /**
   * Two services have a key in common exactly when their parts of it are equal or one continues the
   * other with a colon.
   */
  lemma CacheKeysCollide(s1: Service, s2: Service)
    ensures (exists h1, h2 :: CacheKey(s1.0, s1.1, h1) == CacheKey(s2.0, s2.1, h2)) <==>
            ServiceKey(s1) == ServiceKey(s2) || Confusable(ServiceKey(s1), ServiceKey(s2))
  {
    if ServiceKey(s1) == ServiceKey(s2) {
      SameKeySameRest(s1.0, s1.1, "", s2.0, s2.1, "");
    } else {
      JoinedCollide(ServiceKey(s1), ServiceKey(s2));
      if h1, h2 :| CacheKey(s1.0, s1.1, h1) == CacheKey(s2.0, s2.1, h2) {
        SameKeySameRest(s1.0, s1.1, h1, s2.0, s2.1, h2);
      }
      if h1, h2 :| Joined(ServiceKey(s1), h1) == Joined(ServiceKey(s2), h2) {
        SameKeySameRest(s1.0, s1.1, h1, s2.0, s2.1, h2);
      }
    }
  }

  /** No two of these services have a key in common. */
  ghost predicate Separate(services: set<Service>) {
    forall s1, s2 :: s1 in services && s2 in services ==> SeparateTwo(s1, s2)
  }

  predicate SeparateTwo(s1: Service, s2: Service) {
    s1 == s2 || (ServiceKey(s1) != ServiceKey(s2) && !Confusable(ServiceKey(s1), ServiceKey(s2)))
  }

  ghost predicate Identifies(s1: Service, h1: string, s2: Service, h2: string) {
    CacheKey(s1.0, s1.1, h1) == CacheKey(s2.0, s2.1, h2) ==> s1 == s2 && h1 == h2
  }

  lemma SeparateIdentifies(s1: Service, h1: string, s2: Service, h2: string)
    requires SeparateTwo(s1, s2)
    ensures Identifies(s1, h1, s2, h2)
  {
    SameKeySameRest(s1.0, s1.1, h1, s2.0, s2.1, h2);
    if s1 == s2 {
      assert Joined(ServiceKey(s1), h1)[|ServiceKey(s1)| + 1..] == h1;
      assert Joined(ServiceKey(s1), h2)[|ServiceKey(s1)| + 1..] == h2;
    } else {
      JoinedDetermines(ServiceKey(s1), h1, ServiceKey(s2), h2);
    }
  }

  /** Among given services every key tells its service and its input hash exactly when they are separate. */
  lemma KeysIdentify(services: set<Service>)
    ensures Separate(services) <==>
            forall s1, h1, s2, h2 :: s1 in services && s2 in services ==> Identifies(s1, h1, s2, h2)
  {
    if Separate(services) {
      forall s1, h1, s2, h2 | s1 in services && s2 in services ensures Identifies(s1, h1, s2, h2) {
        SeparateIdentifies(s1, h1, s2, h2);
      }
    } else {
      var s1, s2 :| s1 in services && s2 in services && !SeparateTwo(s1, s2);
      CacheKeysCollide(s1, s2);
      var h1, h2 :| CacheKey(s1.0, s1.1, h1) == CacheKey(s2.0, s2.1, h2);
      assert !Identifies(s1, h1, s2, h2);
    }
  }

  /** Without colons in agent ids and capabilities the key always does. */
  lemma CacheKeyDetermines(a1: string, c1: string, h1: string, a2: string, c2: string, h2: string)
    requires ':' !in a1 && ':' !in c1 && ':' !in a2 && ':' !in c2
    ensures CacheKey(a1, c1, h1) == CacheKey(a2, c2, h2) <==> a1 == a2 && c1 == c2 && h1 == h2
  {
    ColonFree(a1, a2);
    JoinedDetermines(a1, c1, a2, c2);
    JoinedDetermines(a1, c1 + ":" + h1, a2, c2 + ":" + h2);
    ColonFree(c1, c2);
    JoinedDetermines(c1, h1, c2, h2);
    SameKeySameRest(a1, c1, h1, a2, c2, h2);
    assert Joined(Joined(a1, c1), h1) == Joined(a1, c1 + ":" + h1);
    assert Joined(Joined(a2, c2), h2) == Joined(a2, c2 + ":" + h2);
  }
}
