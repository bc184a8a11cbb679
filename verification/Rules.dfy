/** Decisions as lists of rules, in the order in which they are looked at. */
module Rules {
  import opened Prelude

  datatype Rule<E> = Rule(holds: bool, error: E)

  /** The error of the first violated rule. */
  function FirstViolated<E>(rules: seq<Rule<E>>): Option<E> {
    if rules == [] then None
    else if !rules[0].holds then Some(rules[0].error) else FirstViolated(rules[1..])
  }

  lemma {:induction false} FirstAppend<E>(a: seq<Rule<E>>, b: seq<Rule<E>>)
    ensures FirstViolated(a + b) == if FirstViolated(a).Some? then FirstViolated(a) else FirstViolated(b)
  {
    if a == [] {
      assert a + b == b;
    } else {
      FirstAppend(a[1..], b);
      assert (a + b)[1..] == a[1..] + b;
    }
  }

  lemma FirstOne<E>(rule: Rule<E>)
    ensures FirstViolated([rule]) == if rule.holds then None else Some(rule.error)
  {
    assert [rule][1..] == [];
  }

  lemma FirstCons<E>(rule: Rule<E>, rules: seq<Rule<E>>)
    ensures FirstViolated([rule] + rules) == if rule.holds then FirstViolated(rules) else Some(rule.error)
  {
    FirstOne(rule);
    FirstAppend([rule], rules);
  }

  /** No rule is violated, exactly when there is no error. */
  lemma {:induction false} NoneViolated<E>(rules: seq<Rule<E>>)
    ensures FirstViolated(rules).None? <==> forall k :: 0 <= k < |rules| ==> rules[k].holds
  {
    if rules != [] {
      NoneViolated(rules[1..]);
      assert rules == [rules[0]] + rules[1..];
    }
  }
}
