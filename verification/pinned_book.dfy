/** The rules engine's book as the stored versions give it: what a case's pinned version defines stays as it is. */
module PinnedBook {
  import opened Wrappers
  import opened RuleBook
  import opened RuleVersions
  import RuleReview
  import RuleEngine

  /** The stored definitions with the version each belongs to, as the engine looks them up. */
  function Versioned(db: Tables): (book: seq<RuleEngine.VersionedDefinition>)
    requires Linked(db)
    ensures |book| == |db.definitions|
  {
    seq(|db.definitions|, i requires 0 <= i < |db.definitions| =>
      RuleEngine.VersionedDefinition(db.rules[db.definitions[i].ruleId].versionId, db.definitions[i]))
  }

  lemma {:induction false} FoundInFront(
    front: seq<RuleEngine.VersionedDefinition>, back: seq<RuleEngine.VersionedDefinition>, key: string, version: nat)
    requires forall i :: 0 <= i < |back| ==> back[i].versionId != version
    ensures RuleEngine.FindDefinition(front + back, key, version) == RuleEngine.FindDefinition(front, key, version)
  {
    if front == [] {
      assert front + back == back;
      NotFound(back, key, version);
    } else {
      assert (front + back)[1..] == front[1..] + back;
      FoundInFront(front[1..], back, key, version);
    }
  }

  lemma {:induction false} NotFound(book: seq<RuleEngine.VersionedDefinition>, key: string, version: nat)
    requires forall i :: 0 <= i < |book| ==> book[i].versionId != version
    ensures RuleEngine.FindDefinition(book, key, version).None?
  {
    if book != [] {
      NotFound(book[1..], key, version);
    }
  }

  /** Later definitions only join for later versions. */
  lemma BookGrows(a: Tables, b: Tables, version: nat) returns (more: seq<RuleEngine.VersionedDefinition>)
    requires Linked(a) && Linked(b) && RuleReview.ContentGrows(a, b) && RuleReview.RulesKept(a, b) && version < |a.versions|
    ensures Versioned(b) == Versioned(a) + more
    ensures forall i :: 0 <= i < |more| ==> more[i].versionId != version
  {
    more := Versioned(b)[|a.definitions|..];
    forall i | 0 <= i < |a.definitions|
      ensures Versioned(b)[i] == Versioned(a)[i]
    {
      assert b.definitions[i] == a.definitions[i];
    }
  }

  /**
   Whatever is drafted, edited, reviewed, activated, archived or pinned meanwhile, the engine finds the same
   definition under a key of a version: its book may be taken as fixed.
   */
  lemma PinnedDefinitionsStay(db: Tables, calls: seq<RuleReview.Call>, key: string, version: nat)
    requires RuleReview.Inv(db) && version < |db.versions|
    ensures RuleEngine.FindDefinition(Versioned(RuleReview.Run(db, calls)), key, version)
         == RuleEngine.FindDefinition(Versioned(db), key, version)
  {
    RuleReview.RunEvolves(db, calls);
    hide RuleReview.Run, RuleReview.StatesAgree, UniqueNumbers, RuleReview.RulesKept, RuleReview.ContentGrows;
    var more := BookGrows(db, RuleReview.Run(db, calls), version);
    FoundInFront(Versioned(db), more, key, version);
  }
}
