/**
 * Per-type diagnostics: entries of (file, line, message), kept ordered by line.
 */
module ErrorLog {

  datatype ErrorEntry = ErrorEntry(file: string, line: nat, message: string)

  predicate SortedByLine(es: seq<ErrorEntry>) {
    forall i, j | 0 <= i < j < |es| :: es[i].line <= es[j].line
  }

  /** The message add_duplication_error builds */
  function DuplicationMessage(classname: string, fieldname: string): (r: string)
    ensures |r| == 32 + |classname| + |fieldname|
    ensures r[..30] == "Duplicated field registration "
    ensures r[30..30 + |classname|] == classname && r[30 + |classname|..32 + |classname|] == "::"
    ensures r[32 + |classname|..] == fieldname
  {
    "Duplicated field registration " + classname + "::" + fieldname
  }

  /** Swapping two neighbours keeps the entries. */
  lemma SwapKeepsEntries(r: seq<ErrorEntry>, j: nat)
    requires 0 < j < |r|
    ensures multiset(r[j - 1 := r[j]][j := r[j - 1]]) == multiset(r)
  {
    var s := r[j - 1 := r[j]][j := r[j - 1]];
    assert s == r[..j - 1] + [r[j], r[j - 1]] + r[j + 1..];
    assert r == r[..j - 1] + [r[j - 1], r[j]] + r[j + 1..];
  }

  /** add_error's push_back followed by a sort on the line number. The sort the
      source calls is not stable, so only order by line and the multiset of
      entries are promised; this body moves the new entry left past every
      entry with a larger line, one valid outcome of that sort. */
  method PushAndSort(es: seq<ErrorEntry>, e: ErrorEntry) returns (r: seq<ErrorEntry>)
    requires SortedByLine(es)
    ensures |r| == |es| + 1
    ensures multiset(r) == multiset(es) + multiset{e}
    ensures SortedByLine(r)
  {
    r := es + [e];
    var j := |es|;
    while j > 0 && r[j - 1].line > r[j].line
      invariant 0 <= j <= |es|
      invariant |r| == |es| + 1
      invariant multiset(r) == multiset(es) + multiset{e}
      invariant r[j] == e
      invariant forall a, b | 0 <= a < b < |r| && a != j && b != j :: r[a].line <= r[b].line
      invariant forall b | j < b < |r| :: e.line < r[b].line
    {
      SwapKeepsEntries(r, j);
      r := r[j - 1 := r[j]][j := r[j - 1]];
      j := j - 1;
    }
  }
}
