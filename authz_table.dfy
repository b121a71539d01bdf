/**
 * The fake servers of the authorization test table, and what each of them
 * answers: for every server string the table uses, every admin and every
 * missing namespace is listed. The expected outcomes of the table's cases
 * also depend on the validator and the forest, which are not modelled.
 */
module AuthzTable {
  import opened FakeServerSpec
  import FakeServer

  /** `a` is administered and `z` does not exist; nothing else is either. */
  lemma {:induction false} ServerAColonZ()
    ensures forall n :: Admin("a:z", n) <==> n == "a" || n == ":"
    ensures forall n :: Missing("a:z", n) <==> n == "z"
  {
    assert "a:z" == Encode("a", "z");
    forall n ensures Admin("a:z", n) <==> n == "a" || n == ":" {
      AdminOfEncode("a", "z", n);
    }
    forall n ensures Missing("a:z", n) <==> n == "z" {
      MissingOfEncode("a", "z", n);
    }
  }

  /** `a` and `b` are administered and `z` does not exist. */
  lemma {:induction false} ServerAbColonZ()
    ensures forall n :: Admin("ab:z", n) <==> n == "a" || n == "b" || n == ":"
    ensures forall n :: Missing("ab:z", n) <==> n == "z"
  {
    assert "ab:z" == Encode("ab", "z");
    forall n ensures Admin("ab:z", n) <==> n == "a" || n == "b" || n == ":" {
      AdminOfEncode("ab", "z", n);
    }
    forall n ensures Missing("ab:z", n) <==> n == "z" {
      MissingOfEncode("ab", "z", n);
    }
  }

  /** Without a colon: only `a` is administered and every namespace exists. */
  lemma {:induction false} ServerA()
    ensures forall n :: Admin("a", n) <==> n == "a"
    ensures forall n :: !Missing("a", n)
  {
    forall n ensures Admin("a", n) <==> n == "a" {
      AdminOfNoColon("a", n);
    }
    forall n ensures !Missing("a", n) {
      MissingOfNoColon("a", n);
    }
  }

  /** Without a colon: only `b` is administered and every namespace exists. */
  lemma {:induction false} ServerB()
    ensures forall n :: Admin("b", n) <==> n == "b"
    ensures forall n :: !Missing("b", n)
  {
    forall n ensures Admin("b", n) <==> n == "b" {
      AdminOfNoColon("b", n);
    }
    forall n ensures !Missing("b", n) {
      MissingOfNoColon("b", n);
    }
  }

  /** Without a colon: `b` and `c` are administered and every namespace exists. */
  lemma {:induction false} ServerBc()
    ensures forall n :: Admin("bc", n) <==> n == "b" || n == "c"
    ensures forall n :: !Missing("bc", n)
  {
    forall n ensures Admin("bc", n) <==> n == "b" || n == "c" {
      AdminOfNoColon("bc", n);
    }
    forall n ensures !Missing("bc", n) {
      MissingOfNoColon("bc", n);
    }
  }

  /** Without a colon: `a` and `c` are administered and every namespace exists. */
  lemma {:induction false} ServerAc()
    ensures forall n :: Admin("ac", n) <==> n == "a" || n == "c"
    ensures forall n :: !Missing("ac", n)
  {
    forall n ensures Admin("ac", n) <==> n == "a" || n == "c" {
      AdminOfNoColon("ac", n);
    }
    forall n ensures !Missing("ac", n) {
      MissingOfNoColon("ac", n);
    }
  }

  /** Without a colon: `a` and `b` are administered and every namespace exists. */
  lemma {:induction false} ServerAb()
    ensures forall n :: Admin("ab", n) <==> n == "a" || n == "b"
    ensures forall n :: !Missing("ab", n)
  {
    forall n ensures Admin("ab", n) <==> n == "a" || n == "b" {
      AdminOfNoColon("ab", n);
    }
    forall n ensures !Missing("ab", n) {
      MissingOfNoColon("ab", n);
    }
  }

  /** Without a colon: `a`, `b` and `c` are administered and every namespace exists. */
  lemma {:induction false} ServerAbc()
    ensures forall n :: Admin("abc", n) <==> n == "a" || n == "b" || n == "c"
    ensures forall n :: !Missing("abc", n)
  {
    forall n ensures Admin("abc", n) <==> n == "a" || n == "b" || n == "c" {
      AdminOfNoColon("abc", n);
    }
    forall n ensures !Missing("abc", n) {
      MissingOfNoColon("abc", n);
    }
  }

  /** The default, empty server: nobody is an admin of anything and every namespace exists. */
  lemma {:induction false} EmptyServer()
    ensures forall n :: !Admin("", n) && !Missing("", n)
  {
    forall n ensures !Admin("", n) && !Missing("", n) {
      AdminOfNoColon("", n);
      MissingOfNoColon("", n);
    }
  }

  /** Not a server of the table: one rune in both halves is at once an admin and missing. */
  lemma {:induction false} ServerAColonA()
    ensures Admin("a:a", "a") && Missing("a:a", "a")
  {
    assert "a:a" == Encode("a", "a");
    AdminAndMissing("a", "a", 'a');
  }

  /**
   * Sample queries on the servers "a:z" and "ab:z": shows that the contracts
   * of IsAdmin and Exists alone determine the loops' answers.
   */
  method TableQueries()
  {
    ServerAColonZ();
    ServerAbColonZ();
    var admin, err := FakeServer.IsAdmin("a:z", "a");
    assert admin && err == FakeServer.None;
    admin, err := FakeServer.IsAdmin("a:z", "z");
    assert !admin;
    var found, err' := FakeServer.Exists("a:z", "z");
    assert !found && err' == FakeServer.None;
    found, err' := FakeServer.Exists("a:z", "a");
    assert found;
    admin, err := FakeServer.IsAdmin("ab:z", "b");
    assert admin;
    found, err' := FakeServer.Exists("ab:z", "z");
    assert !found;
  }
}
