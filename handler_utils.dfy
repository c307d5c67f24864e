/** internal/prometheus/handler/handlerUtils.go: `arrayToPromList`, which
    turns a list of names into a Prometheus regular-expression alternation. */
module HandlerUtils {
  import opened GoStrings

  /** `strings.Join(arr, "|")`, then one trailing "|" and one leading "|"
      removed if present, then surrounding white space trimmed. */
  function ArrayToPromList(arr: seq<string>): (r: string)
    ensures |r| <= |Join(arr, "|")|
    ensures r == [] || (!IsSpace(r[0]) && !IsSpace(r[|r| - 1]))
  {
    TrimSpace(TrimPrefix(TrimSuffix(Join(arr, "|"), "|"), "|"))
  }

  /** A join starts with its first part and ends with its last. */
  lemma {:induction false} JoinEdges(parts: seq<string>, sep: string)
    requires |parts| >= 1
    ensures HasPrefix(Join(parts, sep), parts[0])
    ensures HasSuffix(Join(parts, sep), parts[|parts| - 1])
  {
    if |parts| > 1 {
      JoinEdges(parts[1..], sep);
      var tail := Join(parts[1..], sep);
      var j := parts[0] + sep + tail;
      assert j[..|parts[0]|] == parts[0];
      assert j[|j| - |tail|..] == tail;
      assert j[|j| - |parts[|parts| - 1]|..] == tail[|tail| - |parts[|parts| - 1]|..];
    }
  }

  /** The empty list gives the empty alternation. */
  lemma ArrayToPromListEmpty()
    ensures ArrayToPromList([]) == ""
  {
  }

  /** When the first part does not start, and the last part does not end,
      with "|" or white space, nothing is trimmed: the result is the plain
      join, every part in order. */
  lemma ArrayToPromListPlainJoin(arr: seq<string>)
    requires |arr| >= 1
    requires arr[0] != "" && arr[0][0] != '|' && !IsSpace(arr[0][0])
    requires arr[|arr| - 1] != "" && arr[|arr| - 1][|arr[|arr| - 1]| - 1] != '|'
    requires !IsSpace(arr[|arr| - 1][|arr[|arr| - 1]| - 1])
    ensures ArrayToPromList(arr) == Join(arr, "|")
  {
    var j := Join(arr, "|");
    JoinEdges(arr, "|");
    var last := arr[|arr| - 1];
    assert j[0] == arr[0][0];
    assert j[|j| - 1] == last[|last| - 1] by {
      assert j[|j| - |last|..] == last;
    }
    assert !HasSuffix(j, "|");
    assert !HasPrefix(j, "|");
    TrimSpaceNoEdges(j);
  }

  /** A trailing empty name disappears with the trailing "|". */
  lemma ArrayToPromListTrailingEmpty()
    ensures ArrayToPromList(["a", ""]) == "a"
  {
    assert Join(["a", ""], "|") == "a|" by {
      assert Join(["a", ""][1..], "|") == "";
    }
    assert TrimSuffix("a|", "|") == "a";
    assert !HasPrefix("a", "|") by {
      assert "a"[..1][0] == 'a';
    }
    TrimSpaceNoEdges("a");
  }

  /** Only one "|" is removed from each end: two trailing empty names leave
      one "|" behind. */
  lemma ArrayToPromListOneSeparatorPerEnd()
    ensures ArrayToPromList(["a", "", ""]) == "a|"
  {
    assert Join(["a", "", ""], "|") == "a||" by {
      assert ["a", "", ""][1..] == ["", ""];
      assert ["", ""][1..] == [""];
      assert Join([""], "|") == "";
      assert Join(["", ""], "|") == "|";
    }
    assert TrimSuffix("a||", "|") == "a|";
    assert TrimPrefix("a|", "|") == "a|";
    TrimSpaceNoEdges("a|");
  }
}
