/**
 A node publish as one caller runs it: the bounded retry over a store that other writers are
 saving to between this caller's loads and saves.
 */
module PublishLoop {
  import opened Outcomes
  import opened ConfigTree
  import opened LayerWrites
  import opened ConditionalWrites
  import opened Publishing

  /** The tree a store holds after `commits` land on `start`. */
  function Landed(start: Option<Tree>, commits: seq<Tree>): Option<Tree> {
    if commits == [] then start else Some(commits[|commits| - 1])
  }

  function Flat(windows: seq<seq<Tree>>): seq<Tree> {
    if windows == [] then [] else Flat(windows[..|windows| - 1]) + windows[|windows| - 1]
  }

  lemma FlatNone()
    ensures Flat([]) == []
  {
  }

  lemma FlatStep(windows: seq<seq<Tree>>, a: nat)
    requires a < |windows|
    ensures Flat(windows[..a + 1]) == Flat(windows[..a]) + windows[a]
  {
    assert windows[..a + 1][..a] == windows[..a];
  }

  class TreeStore {
    var row: Option<Row<Tree>>
    var minted: nat
    ghost var committed: seq<Tree>  // every tree saved, oldest first

    ghost predicate Valid()
      reads this
    {
      row.Some? ==> row.value.etag < minted
    }

    constructor (row: Option<Row<Tree>>, minted: nat)
      requires row.Some? ==> row.value.etag < minted
      ensures Valid() && this.row == row && committed == []
    {
      this.row, this.minted, this.committed := row, minted, [];
    }

    method Load() returns (loaded: Option<Row<Tree>>)
      ensures loaded == row
    {
      loaded := row;
    }

    /** The precondition is decided here, at write time: a version another save moved is refused and
        nothing is written. */
    method Save(tree: Tree, expected: Option<nat>) returns (answer: Answer)
      requires Valid()
      modifies this
      ensures Valid() && minted >= old(minted)
      ensures answer == SaveAnswer(old(row), expected)
      ensures answer == Updated ==> row == Some(Row(tree, old(minted))) && committed == old(committed) + [tree]
      ensures answer != Updated ==> row == old(row) && committed == old(committed)
    {
      answer := SaveAnswer(row, expected);
      if answer == Updated {
        row, minted, committed := Some(Row(tree, minted)), minted + 1, committed + [tree];
      }
    }

    /** What other writers save while this caller is between a load and a save. */
    method Interleave(rivals: seq<Tree>)
      requires Valid()
      modifies this
      ensures Valid() && committed == old(committed) + rivals
      ensures Stored(row) == Landed(Stored(old(row)), rivals)
      ensures rivals == [] ==> row == old(row)
      ensures rivals != [] ==> row.Some? && row.value.etag >= old(minted)
    {
      for i := 0 to |rivals|
        invariant Valid() && minted >= old(minted)
        invariant committed == old(committed) + rivals[..i]
        invariant Stored(row) == Landed(Stored(old(row)), rivals[..i])
        invariant i == 0 ==> row == old(row)
        invariant i > 0 ==> row.Some? && row.value.etag >= old(minted)
      {
        var answer := Save(rivals[i], ETag(row));
        assert rivals[..i + 1] == rivals[..i] + [rivals[i]];
      }
      assert rivals[..|rivals|] == rivals;
    }
  }

  /** Publishes on the tree as read, composing again when another save lands first, up to the bound.
      `rivals[a]` is what others save during the a-th try. A publish that lands was composed on the
      tree it replaced; one that is refused was refused on the tree it had just read; one that gives
      up lost every try to a save; and nothing but a landed publish is added to what others saved. */
  method PublishNodes(store: TreeStore, cloud: Cloud, job: Job, ids: seq<VersionId>, rivals: seq<seq<Tree>>)
    returns (result: Result<VersionId, Refusal>)
    requires store.Valid() && job.NodePublish?
    requires |ids| == |rivals| == CONDITIONAL_WRITE_ATTEMPTS
    modifies store
    ensures store.Valid()
    ensures result.Ok? ==>
              exists a :: 0 <= a < CONDITIONAL_WRITE_ATTEMPTS && LostBefore(rivals, a) && rivals[a] == []
                && result.value == ids[a] && store.row.Some?
                && Attempt(cloud, job, Landed(Stored(old(store.row)), Flat(rivals[..a])), ids[a]) ==
                     Ok(store.row.value.value)
                && store.committed == old(store.committed) + Flat(rivals[..a]) + [store.row.value.value]
    ensures result.Err? && result.error != VersionMismatch ==>
              exists a :: 0 <= a < CONDITIONAL_WRITE_ATTEMPTS && LostBefore(rivals, a)
                && Attempt(cloud, job, Landed(Stored(old(store.row)), Flat(rivals[..a])), ids[a]) == Err(result.error)
                && store.committed == old(store.committed) + Flat(rivals[..a])
    ensures result == Err(VersionMismatch) ==>
              && LostBefore(rivals, CONDITIONAL_WRITE_ATTEMPTS)
              && store.committed == old(store.committed) + Flat(rivals)
  {
    hide Attempt, Flat;
    FlatNone();
    for a := 0 to CONDITIONAL_WRITE_ATTEMPTS
      invariant store.Valid()
      invariant LostBefore(rivals, a)
      invariant store.committed == old(store.committed) + Flat(rivals[..a])
      invariant Stored(store.row) == Landed(Stored(old(store.row)), Flat(rivals[..a]))
    {
      FlatStep(rivals, a);
      var loaded := store.Load();
      var attempt := Attempt(cloud, job, Stored(loaded), ids[a]);
      NodePublishNeverMismatches(cloud, job, Stored(loaded), ids[a]);
      if attempt.Err? {
        return Err(attempt.error);
      }
      store.Interleave(rivals[a]);
      var answer := store.Save(attempt.value, ETag(loaded));
      if answer == Updated {
        return Ok(ids[a]);
      }
    }
    assert rivals[..CONDITIONAL_WRITE_ATTEMPTS] == rivals;
    return Err(VersionMismatch);
  }

  /** The first `n` tries each had a save in between. */
  ghost predicate LostBefore(rivals: seq<seq<Tree>>, n: nat)
    requires n <= |rivals|
  {
    forall b :: 0 <= b < n ==> rivals[b] != []
  }

  lemma NodePublishNeverMismatches(cloud: Cloud, job: Job, before: Option<Tree>, id: VersionId)
    requires job.NodePublish?
    ensures Attempt(cloud, job, before, id) != Err(VersionMismatch)
  {
    if job.compose(before).Ok? {
      MissingIsPrerequisite(cloud, Current(before), NodesFor(job.level, before, job.compose(before).value), 0);
    }
  }

  lemma MissingIsPrerequisite(cloud: Cloud, tree: Tree, nodes: seq<Node>, from: nat)
    requires from <= |nodes|
    ensures CheckPrerequisites(cloud.register, tree.Effective(), nodes, from) != Some(VersionMismatch)
    decreases |nodes| - from
  {
  }
}
