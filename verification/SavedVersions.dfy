/** A row of the save data that several mods add: at every path the last version that differs from the first decides. */
module SavedVersions {
  import opened Documents
  import opened Changelogs
  import opened Pending
  import opened GameData
  import opened MergedRows
  import LastWriter

  lemma LastVersionWins(cx: Contexts, row: Byml, versions: seq<Byml>)
    requires StableRows(row, versions)
    ensures var r := Combined(cx, row, versions);
            r.Some? && r.value.Map? && r.value.kind == row.kind && forall path :: path != [] ==> DecidedAt(row, versions, r.value, path)
  {
    hide StableRows, DecidedAt, LastWriter.Steady, LastWriter.ResultAt;
    var logs := MergedRows.Logs(cx.logging.rules, cx.logging.type_, 0, row, versions);
    assert logs == GameData.Logs(cx, row, versions);
    LogsSteady(cx.logging.rules, cx.logging.type_, 0, row, versions);
    if versions == [] {
      FirstAlone(row);
    } else {
      LastWriter.LastWriterWins(cx.added, row, logs);
      var r := Combined(cx, row, versions).value;
      assert LastWriter.ResultBelow(row, logs, r);
      forall path: seq<Key> | path != []
        ensures DecidedAt(row, versions, r, path)
      {
        assert LastWriter.ResultAt(row, logs, r, path);
        DecidedFrom(cx.logging.rules, cx.logging.type_, 0, row, versions, r, path);
      }
    }
  }

  /** A row nobody else adds stays as it is. */
  lemma FirstAlone(row: Byml)
    requires StableRows(row, [])
    ensures row.Map? && forall path :: path != [] ==> DecidedAt(row, [], row, path)
  {
    forall path: seq<Key> | path != []
      ensures DecidedAt(row, [], row, path)
    {
      NoRemovesInside(row, path);
      AllThere(row, path);
    }
  }

  lemma {:induction false} AllThere(node: Byml, path: seq<Key>)
    ensures LastWriter.NodeAt(node, path).Some? ==> forall n :: 0 <= n <= |path| ==> LastWriter.NodeAt(node, path[..n]).Some?
    ensures path[..|path|] == path
    decreases |path|
  {
    if path != [] && LastWriter.NodeAt(node, path).Some? {
      AllThere(node.entries[path[0]], path[1..]);
      forall n | 0 < n <= |path|
        ensures LastWriter.NodeAt(node, path[..n]).Some?
      {
        assert path[..n][1..] == path[1..][..n - 1];
      }
    }
  }
}
