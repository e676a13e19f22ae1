/** The diff aggregation of `getChangesFromMR` (main.go:88-113). The GitLab
    client and its `ListMergeRequestDiffs` call are a parameter: a function from
    (project path, merge-request number) to what the call returns. */
module DiffAggregator {
  import opened Wrappers

  /** One changed file, reduced to the two fields the aggregation reads. */
  datatype FileDiff = FileDiff(newPath: string, diff: string)

  /** What the GitLab collaborator gives back for one merge request. */
  datatype FetchResult =
    | ClientInitFailed               // gitlab.NewClient failed, main.go:93-97
    | ListFailed                     // ListMergeRequestDiffs failed, main.go:99-104
    | Listed(changes: seq<FileDiff>) // the diffs, in the order the API returned them

  datatype FetchError = ClientInitError | ListError

  /** The template of main.go:108 for one file: 20 characters of its own
      around the path and the patch, ending in a newline. */
  function Entry(c: FileDiff): (e: string)
    ensures |e| == |c.newPath| + |c.diff| + 20 && e[|e| - 1] == '\n'
  {
    "Файл: " + c.newPath + "\n Изменения:\n" + c.diff + "\n"
  }

  /** Where the fields sit in an entry: the header `Файл: `, the path right
      after it, and the patch right before the closing newline. */
  lemma EntryFields(c: FileDiff)
    ensures var e := Entry(c);
            e[..6] == "Файл: " && e[6..6 + |c.newPath|] == c.newPath &&
            e[|e| - 1 - |c.diff|..|e| - 1] == c.diff
  {
  }

  /** The in-order concatenation of every file's entry, with no separator. It
      is empty exactly when there are no files, and otherwise ends in a newline. */
  function Aggregate(changes: seq<FileDiff>): (r: string)
    ensures r == "" <==> changes == []
    ensures changes != [] ==> r[|r| - 1] == '\n'
  {
    if changes == [] then "" else Entry(changes[0]) + Aggregate(changes[1..])
  }

  /** Aggregating two lists one after the other is aggregating their concatenation. */
  lemma {:induction false} AggregateAppend(a: seq<FileDiff>, b: seq<FileDiff>)
    ensures Aggregate(a + b) == Aggregate(a) + Aggregate(b)
  {
    if a == [] {
      assert a + b == b;
    } else {
      assert (a + b)[1..] == a[1..] + b;
      AggregateAppend(a[1..], b);
    }
  }

  /** No reordering: the entry of file `i` stands after the entries of every
      earlier file and before those of every later one. */
  lemma AggregateAt(changes: seq<FileDiff>, i: nat)
    requires i < |changes|
    ensures Aggregate(changes)
         == Aggregate(changes[..i]) + Entry(changes[i]) + Aggregate(changes[i + 1..])
  {
    var tail := changes[i..];
    assert changes == changes[..i] + tail;
    AggregateAppend(changes[..i], tail);
    assert tail[1..] == changes[i + 1..];
    assert Aggregate(tail) == Entry(changes[i]) + Aggregate(changes[i + 1..]);
  }

  /** The single-file example: the header, the path, the label line, the patch. */
  lemma AggregateOneFile()
    ensures Aggregate([FileDiff("a.go", "X")]) == "Файл: a.go\n Изменения:\nX\n"
  {
  }

  /** `getChangesFromMR` with the collaborator as `listDiffs`: on a failed call,
      "" and an error; otherwise the aggregate of the returned diffs, built by
      the loop of main.go:106-109, and no error. An empty list gives "". */
  method GetChangesFromMR(projectID: string, mrIID: int, listDiffs: (string, int) -> FetchResult)
    returns (diffsChanges: string, err: Option<FetchError>)
    ensures err.None? <==> listDiffs(projectID, mrIID).Listed?
    ensures err == Some(ClientInitError) <==> listDiffs(projectID, mrIID).ClientInitFailed?
    ensures err.None? ==> diffsChanges == Aggregate(listDiffs(projectID, mrIID).changes)
    ensures err.Some? ==> diffsChanges == ""
  {
    var fetched := listDiffs(projectID, mrIID);
    match fetched {
      case ClientInitFailed =>
        return "", Some(ClientInitError);
      case ListFailed =>
        return "", Some(ListError);
      case Listed(mr) =>
        var allChanges := "";
        for i := 0 to |mr|
          invariant allChanges == Aggregate(mr[..i])
        {
          AggregateAppend(mr[..i], [mr[i]]);
          assert mr[..i + 1] == mr[..i] + [mr[i]];
          allChanges := allChanges + Entry(mr[i]);
        }
        assert mr[..|mr|] == mr;
        return allChanges, None;
    }
  }
}
