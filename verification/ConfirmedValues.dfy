/** The check that keeps a value needing a recorded confirmation off every write but the settings
    republish. */
module ConfirmedValues {
  import opened Outcomes
  import opened Json

  /** A registered setting: the node and field it is carried in, and the value, if any, that is set
      only with its notice confirmed. */
  datatype Setting = Setting(node: string, field: string, confirm: Option<string>)

  predicate NeedsConfirming(setting: Setting, value: Json) {
    setting.confirm.Some? && value == Str(setting.confirm.value)
  }

  /** The setting's field in a document, if the document carries it. */
  function Field(document: Json, setting: Setting): Option<Json> {
    if document.Has(setting.node) && document.Get(setting.node).Has(setting.field)
    then Some(document.Get(setting.node).Get(setting.field))
    else None
  }

  /** The store runs a value of `setting` that needs confirming. */
  predicate Runs(document: Json, setting: Setting) {
    Field(document, setting).Some? && NeedsConfirming(setting, Field(document, setting).value)
  }

  predicate Starts(before: Json, after: Json, setting: Setting) {
    Runs(after, setting) && Field(before, setting) != Field(after, setting)
  }

  /** The first setting, in the register's order, the write would start running unconfirmed. */
  function Check(register: seq<Setting>, before: Json, after: Json): (refused: Option<Setting>)
    ensures refused.None? <==> forall setting :: setting in register ==> !Starts(before, after, setting)
    ensures refused.Some? ==>
              exists i :: 0 <= i < |register| && register[i] == refused.value && Starts(before, after, register[i])
                          && forall j :: 0 <= j < i ==> !Starts(before, after, register[j])
  {
    if register == [] then None
    else if Starts(before, after, register[0]) then Some(register[0])
    else
      var rest := Check(register[1..], before, after);
      assert forall setting :: setting in register <==> setting == register[0] || setting in register[1..];
      assert rest.Some? ==>
          exists i :: 0 <= i < |register| && register[i] == rest.value && Starts(before, after, register[i])
                      && forall j :: 0 <= j < i ==> !Starts(before, after, register[j]) by {
        if rest.Some? {
          var i :| 0 <= i < |register[1..]| && register[1..][i] == rest.value
                   && Starts(before, after, register[1..][i])
                   && forall j :: 0 <= j < i ==> !Starts(before, after, register[1..][j]);
          forall j | 0 <= j < i + 1 ensures !Starts(before, after, register[j]) {
            if j > 0 { assert register[j] == register[1..][j - 1]; }
          }
          assert register[i + 1] == rest.value;
        }
      }
      rest
  }
}
