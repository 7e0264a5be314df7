/** The renaming of metadata keys in Firebase Authentication events. */
module MetadataRenames {
  import opened Wrappers
  import opened JsonValues

  const RENAMES: seq<(string, string)> :=
    [("createdAt", "createTime"), ("lastSignedInAt", "lastSignInTime")]

  /** The text under the old name is moved, if there is one and it is not empty. */
  predicate Moves(fields: map<string, Json>, rename: (string, string)) {
    rename.0 in fields && fields[rename.0].Str? && fields[rename.0].s != ""
  }

  /** An old name holds something that is not a text. */
  predicate Unmovable(fields: map<string, Json>, rename: (string, string)) {
    rename.0 in fields && !fields[rename.0].Str?
  }

  function RenameOne(fields: map<string, Json>, rename: (string, string))
    : Result<map<string, Json>>
  {
    if Unmovable(fields, rename) then Thrown(JSON_ERROR)
    else if Moves(fields, rename) then Ok(fields[rename.1 := fields[rename.0]] - {rename.0})
    else Ok(fields)
  }

  function RenameAll(fields: map<string, Json>, renames: seq<(string, string)>)
    : Result<map<string, Json>>
  {
    if renames == [] then Ok(fields)
    else
      var done :- RenameAll(fields, renames[..|renames| - 1]);
      RenameOne(done, renames[|renames| - 1])
  }

  /** No name is used twice, as old or as new. */
  predicate Unrelated(renames: seq<(string, string)>) {
    && (forall i, j :: 0 <= i < |renames| && 0 <= j < |renames| ==> renames[i].0 != renames[j].1)
    && (forall i, j :: 0 <= i < j < |renames| ==>
          renames[i].0 != renames[j].0 && renames[i].1 != renames[j].1)
  }

  /** The key is the old or the new name of something that is moved. */
  ghost predicate Touched(fields: map<string, Json>, renames: seq<(string, string)>, key: string) {
    exists i :: 0 <= i < |renames| && Moves(fields, renames[i])
                && (key == renames[i].0 || key == renames[i].1)
  }

  predicate SameAt(a: map<string, Json>, b: map<string, Json>, key: string) {
    if key in a then key in b && a[key] == b[key] else key !in b
  }

  /** `after` is `before` with every text moved to its new name and everything else untouched. */
  ghost predicate IsRenaming(before: map<string, Json>, renames: seq<(string, string)>,
                             after: map<string, Json>)
  {
    && (forall i :: 0 <= i < |renames| && Moves(before, renames[i]) ==>
          && renames[i].0 !in after
          && renames[i].1 in after && after[renames[i].1] == before[renames[i].0])
    && (forall key :: !Touched(before, renames, key) ==> SameAt(before, after, key))
  }

  lemma UntouchedNames(fields: map<string, Json>, renames: seq<(string, string)>, last: nat)
    requires last < |renames| && Unrelated(renames)
    ensures !Touched(fields, renames[..last], renames[last].0)
    ensures !Touched(fields, renames[..last], renames[last].1)
  {
  }

  lemma TouchedByMore(fields: map<string, Json>, renames: seq<(string, string)>, last: nat, key: string)
    requires |renames| == last + 1
    ensures Touched(fields, renames, key) <==>
            || Touched(fields, renames[..last], key)
            || (Moves(fields, renames[last]) && (key == renames[last].0 || key == renames[last].1))
  {
    hide Moves;
    assert forall i :: 0 <= i < last ==> renames[..last][i] == renames[i];
  }

  lemma RenamingGrows(before: map<string, Json>, renames: seq<(string, string)>, last: nat,
                      done: map<string, Json>)
    requires |renames| == last + 1 && Unrelated(renames)
    requires IsRenaming(before, renames[..last], done)
    requires RenameOne(done, renames[last]).Ok?
    ensures IsRenaming(before, renames, RenameOne(done, renames[last]).value)
  {
    var r, after := renames[last], RenameOne(done, renames[last]).value;
    UntouchedNames(before, renames, last);
    assert SameAt(before, done, r.0);
    hide Touched;
    forall i | 0 <= i < |renames| && Moves(before, renames[i])
      ensures renames[i].0 !in after
      ensures renames[i].1 in after && after[renames[i].1] == before[renames[i].0]
    {
      if i < last {
        assert renames[..last][i] == renames[i];
      }
    }
    forall key | !Touched(before, renames, key)
      ensures SameAt(before, after, key)
    {
      TouchedByMore(before, renames, last, key);
    }
  }

  /** When the renaming succeeds, and that it does to each key what its name says. */
  lemma {:induction false} RenameAllIsExact(fields: map<string, Json>, renames: seq<(string, string)>)
    requires Unrelated(renames)
    ensures RenameAll(fields, renames).Thrown? <==>
            exists i :: 0 <= i < |renames| && Unmovable(fields, renames[i])
    ensures RenameAll(fields, renames).Ok? ==>
              IsRenaming(fields, renames, RenameAll(fields, renames).value)
    ensures RenameAll(fields, renames).Thrown? ==> RenameAll(fields, renames).what == JSON_ERROR
  {
    if renames != [] {
      var last := |renames| - 1;
      RenameAllIsExact(fields, renames[..last]);
      hide RenameOne, Unmovable;
      assert forall i :: 0 <= i < last ==> renames[..last][i] == renames[i];
      if RenameAll(fields, renames[..last]).Ok? {
        var done := RenameAll(fields, renames[..last]).value;
        LastNameIsUnchanged(fields, renames, last, done);
        hide IsRenaming;
        if RenameOne(done, renames[last]).Ok? {
          RenamingGrows(fields, renames, last, done);
        }
      }
    }
  }

  lemma LastNameIsUnchanged(fields: map<string, Json>, renames: seq<(string, string)>, last: nat,
                            done: map<string, Json>)
    requires last < |renames| && Unrelated(renames)
    requires IsRenaming(fields, renames[..last], done)
    ensures RenameOne(done, renames[last]).Thrown? <==> Unmovable(fields, renames[last])
    ensures Moves(done, renames[last]) <==> Moves(fields, renames[last])
  {
    UntouchedNames(fields, renames, last);
    assert SameAt(fields, done, renames[last].0);
  }

  lemma RenamingIsUnique(before: map<string, Json>, a: seq<(string, string)>,
                         b: seq<(string, string)>, after: map<string, Json>, after': map<string, Json>)
    requires forall r :: r in a <==> r in b
    requires IsRenaming(before, a, after) && IsRenaming(before, b, after')
    ensures after == after'
  {
    hide Moves;
    forall key
      ensures SameAt(after, after', key)
    {
      if Touched(before, a, key) {
        var i :| 0 <= i < |a| && Moves(before, a[i]) && (key == a[i].0 || key == a[i].1);
        assert a[i] in b;
        var j :| 0 <= j < |b| && b[j] == a[i];
      } else {
        TouchedByTheSame(before, a, b, key);
        assert SameAt(before, after, key) && SameAt(before, after', key);
      }
    }
    assert forall key :: SameAt(after, after', key) ==> (key in after <==> key in after');
  }

  lemma TouchedByTheSame(before: map<string, Json>, a: seq<(string, string)>,
                         b: seq<(string, string)>, key: string)
    requires forall r :: r in a <==> r in b
    ensures Touched(before, b, key) ==> Touched(before, a, key)
  {
    hide Moves;
    if Touched(before, b, key) {
      var i :| 0 <= i < |b| && Moves(before, b[i]) && (key == b[i].0 || key == b[i].1);
      assert b[i] in a;
      var j :| 0 <= j < |a| && a[j] == b[i];
    }
  }

  /** The order of unrelated renames does not matter, not even for failing. */
  lemma RenameOrderDoesNotMatter(fields: map<string, Json>, a: seq<(string, string)>,
                                 b: seq<(string, string)>)
    requires Unrelated(a) && Unrelated(b)
    requires forall r :: r in a <==> r in b
    ensures RenameAll(fields, a) == RenameAll(fields, b)
  {
    hide IsRenaming, Unmovable, Unrelated, RenameAll;
    RenameAllIsExact(fields, a);
    RenameAllIsExact(fields, b);
    if i :| 0 <= i < |a| && Unmovable(fields, a[i]) {
      assert a[i] in b;
    }
    if i :| 0 <= i < |b| && Unmovable(fields, b[i]) {
      assert b[i] in a;
    }
    if RenameAll(fields, a).Ok? && RenameAll(fields, b).Ok? {
      RenamingIsUnique(fields, a, b, RenameAll(fields, a).value, RenameAll(fields, b).value);
    }
  }

  lemma {:induction false} NothingToRename(fields: map<string, Json>, renames: seq<(string, string)>)
    requires forall i :: 0 <= i < |renames| ==>
               !Moves(fields, renames[i]) && !Unmovable(fields, renames[i])
    ensures RenameAll(fields, renames) == Ok(fields)
  {
    if renames != [] {
      NothingToRename(fields, renames[..|renames| - 1]);
    }
  }

  /** A second renaming changes nothing. */
  lemma SecondRenamingChangesNothing(fields: map<string, Json>, renames: seq<(string, string)>)
    requires Unrelated(renames) && RenameAll(fields, renames).Ok?
    ensures RenameAll(RenameAll(fields, renames).value, renames) == RenameAll(fields, renames)
  {
    var after := RenameAll(fields, renames).value;
    RenameAllIsExact(fields, renames);
    hide RenameAll;
    forall i | 0 <= i < |renames|
      ensures !Moves(after, renames[i]) && !Unmovable(after, renames[i])
    {
      if !Moves(fields, renames[i]) {
        assert !Unmovable(fields, renames[i]);
        assert !Touched(fields, renames, renames[i].0);
        assert SameAt(fields, after, renames[i].0);
      }
    }
    NothingToRename(after, renames);
  }

  /** The renames of the metadata are unrelated, so all of this holds for them. */
  lemma RenamesAreUnrelated()
    ensures Unrelated(RENAMES)
  {
  }

  method RenameKeys(metadata: Json, renames: seq<(string, string)>) returns (r: Result<Json>)
    ensures !metadata.Obj? ==> r == Ok(metadata)
    ensures metadata.Obj? ==> r == var fields :- RenameAll(metadata.fields, renames); Ok(Obj(fields))
  {
    var current := metadata;
    for i := 0 to |renames|
      invariant !metadata.Obj? ==> current == metadata
      invariant metadata.Obj? ==>
                  current.Obj? && RenameAll(metadata.fields, renames[..i]) == Ok(current.fields)
    {
      RenameOneMore(metadata, renames, i);
      var (oldName, newName) := renames[i];
      if !current.Has(oldName) { continue; }
      var value :- current.fields[oldName].Text();
      if value == "" { continue; }
      current := Obj(current.fields[newName := Str(value)]);
      current := Obj(current.fields - {oldName});
    }
    assert renames[..|renames|] == renames;
    return Ok(current);
  }

  lemma RenameOneMore(metadata: Json, renames: seq<(string, string)>, i: nat)
    requires i < |renames|
    ensures metadata.Obj? && RenameAll(metadata.fields, renames[..i]).Ok? ==>
              var next := RenameOne(RenameAll(metadata.fields, renames[..i]).value, renames[i]);
              && RenameAll(metadata.fields, renames[..i + 1]) == next
              && (next.Thrown? ==> RenameAll(metadata.fields, renames) == next)
    decreases |renames|
  {
    hide RenameOne;
    assert renames[..i + 1][..i] == renames[..i];
    if i + 1 == |renames| {
      assert renames[..i + 1] == renames;
    } else {
      var most := renames[..|renames| - 1];
      assert most[..i] == renames[..i] && most[..i + 1] == renames[..i + 1];
      RenameOneMore(metadata, most, i);
    }
  }

  /** A text that is not empty. */
  predicate IsText(fields: map<string, Json>, key: string) {
    key in fields && fields[key].Str? && fields[key].s != ""
  }

  /** The renames by name: each is done exactly if there is a text, and nothing else is touched. */
  lemma MetadataByName(before: map<string, Json>, after: map<string, Json>)
    requires RenameAll(before, RENAMES) == Ok(after)
    ensures if IsText(before, "createdAt")
            then "createdAt" !in after && "createTime" in after
                 && after["createTime"] == before["createdAt"]
            else SameAt(before, after, "createdAt") && SameAt(before, after, "createTime")
    ensures if IsText(before, "lastSignedInAt")
            then "lastSignedInAt" !in after && "lastSignInTime" in after
                 && after["lastSignInTime"] == before["lastSignedInAt"]
            else SameAt(before, after, "lastSignedInAt") && SameAt(before, after, "lastSignInTime")
    ensures forall key :: key !in {"createdAt", "createTime", "lastSignedInAt", "lastSignInTime"} ==>
              SameAt(before, after, key)
  {
    hide RenameAll;
    RenamesAreUnrelated();
    RenameAllIsExact(before, RENAMES);
    assert IsText(before, "createdAt") <==> Moves(before, RENAMES[0]);
    assert IsText(before, "lastSignedInAt") <==> Moves(before, RENAMES[1]);
    TouchedByName(before);
  }

  lemma TouchedByName(fields: map<string, Json>)
    ensures forall key :: Touched(fields, RENAMES, key) <==>
              || (IsText(fields, "createdAt") && (key == "createdAt" || key == "createTime"))
              || (IsText(fields, "lastSignedInAt")
                  && (key == "lastSignedInAt" || key == "lastSignInTime"))
  {
    assert IsText(fields, "createdAt") <==> Moves(fields, RENAMES[0]);
    assert IsText(fields, "lastSignedInAt") <==> Moves(fields, RENAMES[1]);
    hide Moves, IsText;
    assert RENAMES[0] == ("createdAt", "createTime");
    assert RENAMES[1] == ("lastSignedInAt", "lastSignInTime");
  }
}
