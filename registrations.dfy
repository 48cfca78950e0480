/** What the registration decorators of the code base have in common: each
    one is a dictionary assignment `table[name] = entry` made when a class
    is decorated, so a table is determined by the sequence of registrations
    made so far. */
module Registrations {

  /** A Python class object, known by its qualified name. */
  datatype ClassRef = ClassRef(qualname: string)

  /** The table a sequence of registrations leaves behind, starting from `{}`. */
  function Table<C>(regs: seq<(string, C)>): map<string, C>
    decreases |regs|
  {
    if regs == [] then map[]
    else Table(regs[..|regs| - 1])[regs[|regs| - 1].0 := regs[|regs| - 1].1]
  }

  /** One more registration is one more dictionary assignment. */
  lemma TableSnoc<C>(regs: seq<(string, C)>, name: string, entry: C)
    ensures Table(regs + [(name, entry)]) == Table(regs)[name := entry]
  {
    assert (regs + [(name, entry)])[..|regs|] == regs;
  }

  /** A name is in the table exactly when it was registered at least once. */
  lemma {:induction false} RegisteredOnce<C>(regs: seq<(string, C)>, name: string, k: nat)
    requires k < |regs| && regs[k].0 == name
    ensures name in Table(regs)
    decreases |regs|
  {
    var n := |regs| - 1;
    if k < n {
      assert regs[..n][k] == regs[k];
      RegisteredOnce(regs[..n], name, k);
    }
  }

  /** The last registration under a name wins: the entry stored is the one of
      the last registration with that name, and every name in the table was
      registered. */
  lemma {:induction false} LastRegistrationWins<C>(regs: seq<(string, C)>, name: string) returns (k: nat)
    requires name in Table(regs)
    ensures k < |regs| && regs[k].0 == name && Table(regs)[name] == regs[k].1
    ensures forall j :: k < j < |regs| ==> regs[j].0 != name
    decreases |regs|
  {
    var n := |regs| - 1;
    if regs[n].0 == name {
      k := n;
    } else {
      k := LastRegistrationWins(regs[..n], name);
      assert regs[..n][k] == regs[k];
      forall j | k < j < |regs|
        ensures regs[j].0 != name
      {
        if j < n {
          assert regs[..n][j] == regs[j];
        }
      }
    }
  }

  /** A registration leaves every other name's entry as it was. */
  lemma OthersUntouched<C>(regs: seq<(string, C)>, name: string, entry: C, other: string)
    requires other != name
    ensures other in Table(regs + [(name, entry)]) <==> other in Table(regs)
    ensures other in Table(regs) ==> Table(regs + [(name, entry)])[other] == Table(regs)[other]
  {
    TableSnoc(regs, name, entry);
  }

  /** Registering again under a name replaces its entry, whatever came before. */
  lemma ReRegistrationReplaces<C>(regs: seq<(string, C)>, name: string, first: C, second: C)
    ensures Table(regs + [(name, first)] + [(name, second)]) == Table(regs)[name := second]
  {
    TableSnoc(regs, name, first);
    TableSnoc(regs + [(name, first)], name, second);
  }
}
