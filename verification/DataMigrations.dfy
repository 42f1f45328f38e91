/** A bounded ledger of changes that are made once: an entry goes in under a name, and a later entry under
    that name leaves its first time standing. */
module DataMigrations {
  import opened Outcomes

  const IN_MEMORY_CHANGES := 256

  class InMemoryDataMigrations {
    var names: map<string, int>

    ghost predicate Valid()
      reads this
    {
      |names| <= IN_MEMORY_CHANGES
    }

    constructor ()
      ensures Valid() && names == map[]
    {
      names := map[];
    }

    method RecordedTime(name: string) returns (at: Option<int>)
      ensures at == if name in names then Some(names[name]) else None
    {
      at := if name in names then Some(names[name]) else None;
    }

    method Record(name: string, at: int) returns (recorded: bool)
      requires Valid()
      modifies this
      ensures Valid()
      ensures recorded == (name in old(names) || |old(names)| < IN_MEMORY_CHANGES)
      ensures recorded ==> name in names && names[name] == if name in old(names) then old(names)[name] else at
      ensures forall other :: other != name ==>
                (other in names <==> other in old(names)) && (other in names ==> names[other] == old(names)[other])
      ensures name in old(names) || !recorded ==> names == old(names)
    {
      recorded := true;
      if name in names {
        return;
      }
      if |names| >= IN_MEMORY_CHANGES {
        return false;
      }
      assert |names[name := at].Keys| == |names.Keys| + 1 by {
        assert names[name := at].Keys == names.Keys + {name};
      }
      names := names[name := at];
    }
  }
}
