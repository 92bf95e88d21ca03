/** File paths inside a Workspace: which are safe, and that resolving them changes nothing. */
module WorkspacePaths {
  import JsonPointer

  function Parts(path: string): seq<string> { JsonPointer.Split(path) }

  /** No part goes nowhere or up, and the path is neither absolute nor written with backslashes. */
  predicate IsSafe(path: string) {
    path != "" && path[0] != '/' && '\\' !in path
    && forall i | 0 <= i < |Parts(path)| :: Parts(path)[i] !in {"", ".", ".."}
  }

  /** Walk the parts from a directory: empty and single-dot parts stay, double-dot parts go up, the root is its own parent. */
  function Walk(at: seq<string>, parts: seq<string>): seq<string>
    decreases |parts|
  {
    if parts == [] then at
    else
      var part := parts[0];
      Walk(if part in {"", "."} then at
           else if part == ".." then (if at == [] then [] else at[..|at| - 1])
           else at + [part],
           parts[1..])
  }

  /** Where a path leads, seen from the Workspace root. */
  function Resolved(path: string): string {
    var parts := Walk([], Parts(path));
    if parts == [] then "" else JsonPointer.Join(parts)
  }

  lemma {:induction false} JoinInvertsSplit(path: string)
    ensures JsonPointer.Join(Parts(path)) == path
  {
    if path != "" {
      JoinInvertsSplit(path[1..]);
      var more := Parts(path[1..]);
      if path[0] == '/' {
        assert Parts(path) == [""] + more && Parts(path)[1..] == more;
        assert JsonPointer.Join(Parts(path)) == "" + "/" + path[1..];
      } else {
        assert Parts(path) == [[path[0]] + more[0]] + more[1..];
        assert Parts(path)[1..] == more[1..];
        assert |more| > 1 ==>
          [path[0]] + more[0] + "/" + JsonPointer.Join(more[1..]) == [path[0]] + (more[0] + "/" + JsonPointer.Join(more[1..]));
        assert JsonPointer.Join(Parts(path)) == [path[0]] + JsonPointer.Join(more);
      }
    }
  }

  lemma {:induction false} PlainPartsAreWalked(at: seq<string>, parts: seq<string>)
    requires forall i | 0 <= i < |parts| :: parts[i] !in {"", ".", ".."}
    ensures Walk(at, parts) == at + parts
    decreases |parts|
  {
    if parts != [] {
      PlainPartsAreWalked(at + [parts[0]], parts[1..]);
      assert at + [parts[0]] + parts[1..] == at + parts;
    } else {
      assert at + parts == at;
    }
  }

  /** Resolving a safe path leaves it unchanged, so it stays below the root. */
  lemma SafePathsResolveToThemselves(path: string)
    requires IsSafe(path)
    ensures Resolved(path) == path
  {
    PlainPartsAreWalked([], Parts(path));
    assert [] + Parts(path) == Parts(path);
    JoinInvertsSplit(path);
  }

  predicate IsPlain(part: string) { part !in {"", ".", ".."} && '/' !in part }

  predicate ArePlain(parts: seq<string>) { forall i | 0 <= i < |parts| :: IsPlain(parts[i]) }

  lemma {:induction false} PartsHaveNoSlash(path: string)
    ensures forall i | 0 <= i < |Parts(path)| :: '/' !in Parts(path)[i]
  {
    if path != "" {
      PartsHaveNoSlash(path[1..]);
      var more := Parts(path[1..]);
      assert Parts(path) == if path[0] == '/' then [""] + more else [[path[0]] + more[0]] + more[1..];
    }
  }

  lemma {:induction false} WalkingLeavesPlain(at: seq<string>, parts: seq<string>)
    requires ArePlain(at) && forall i | 0 <= i < |parts| :: '/' !in parts[i]
    ensures ArePlain(Walk(at, parts))
    decreases |parts|
  {
    if parts != [] {
      var part := parts[0];
      WalkingLeavesPlain(if part in {"", "."} then at
                         else if part == ".." then (if at == [] then [] else at[..|at| - 1])
                         else at + [part],
                         parts[1..]);
    }
  }

  lemma {:induction false} SplitInvertsJoin(parts: seq<string>)
    requires parts != [] && ArePlain(parts)
    ensures Parts(JsonPointer.Join(parts)) == parts
  {
    assert parts == [parts[0]] + parts[1..];
    JsonPointer.SplitOne(parts[0], if |parts| == 1 then "" else JsonPointer.Join(parts[1..]));
    if |parts| > 1 {
      SplitInvertsJoin(parts[1..]);
    }
  }

  lemma AbsoluteStartsEmpty(path: string)
    requires path != ""
    ensures path[0] == '/' ==> Parts(path)[0] == ""
  {
  }

  lemma UnchangedIsSafe(path: string)
    requires path != "" && '\\' !in path && Resolved(path) == path
    ensures IsSafe(path)
  {
    var walked := Walk([], Parts(path));
    PartsHaveNoSlash(path);
    WalkingLeavesPlain([], Parts(path));
    SplitInvertsJoin(walked);
    AbsoluteStartsEmpty(path);
    assert IsPlain(walked[0]);
  }

  /** Safe are exactly the paths without backslashes that lead where they say: resolving them changes nothing. */
  lemma SafeIsUnchanged(path: string)
    ensures IsSafe(path) <==> path != "" && '\\' !in path && Resolved(path) == path
  {
    if IsSafe(path) {
      SafePathsResolveToThemselves(path);
    }
    if path != "" && '\\' !in path && Resolved(path) == path {
      UnchangedIsSafe(path);
    }
  }
}
