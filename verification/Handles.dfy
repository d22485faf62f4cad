// Volume and snapshot handles: parseVolumeHandle, formatVolumeHandle,
// parseSnapshotHandle and formatSnapshotHandle.
module Handles {
  import opened Wrappers
  import opened Text

  datatype Handle = Handle(spaceID: int, filesystemID: int)
  datatype SnapshotHandle = SnapshotHandle(spaceID: int, filesystemID: int, snapshotID: int)

  // None is the InvalidArgument outcome.
  function ParseVolumeHandle(volumeID: string): Option<Handle>
  {
    var parts := Split(TrimSpace(volumeID), '/');
    if |parts| != 2 || parts[0] == "" || parts[1] == "" then None
    else
      match (Atoi(parts[0]), Atoi(parts[1]))
      case (Some(spaceID), Some(filesystemID)) => Some(Handle(spaceID, filesystemID))
      case _ => None
  }

  function FormatVolumeHandle(spaceID: int, filesystemID: int): string {
    Itoa(spaceID) + "/" + Itoa(filesystemID)
  }

  function FormatSnapshotHandle(spaceID: int, filesystemID: int, snapshotID: int): string {
    Itoa(spaceID) + "/" + Itoa(filesystemID) + "/" + Itoa(snapshotID)
  }

  function ParseSnapshotHandle(snapshotID: string): Option<SnapshotHandle>
  {
    var parts := Split(TrimSpace(snapshotID), '/');
    if |parts| != 3 then None
    else
      match (Atoi(parts[0]), Atoi(parts[1]), Atoi(parts[2]))
      case (Some(spaceID), Some(filesystemID), Some(snapshot)) =>
        Some(SnapshotHandle(spaceID, filesystemID, snapshot))
      case _ => None
  }

  // Exactly the texts that are accepted: two non-empty integers with one slash
  // between them, after trimming.
  lemma AcceptedVolumeHandles(volumeID: string, h: Handle)
    ensures ParseVolumeHandle(volumeID) == Some(h) <==>
            exists a, b ::
              && TrimSpace(volumeID) == a + "/" + b && '/' !in a && '/' !in b
              && Atoi(a) == Some(h.spaceID) && Atoi(b) == Some(h.filesystemID)
  {
    var text := TrimSpace(volumeID);
    EmptyIsNoNumber();
    if ParseVolumeHandle(volumeID) == Some(h) {
      var parts := Split(text, '/');
      JoinSplit(text, '/');
      assert parts == [parts[0], parts[1]] && parts[1..] == [parts[1]];
      assert text == parts[0] + "/" + parts[1] && parts[0] in parts && parts[1] in parts;
    }
    forall a, b | text == a + "/" + b && '/' !in a && '/' !in b
                  && Atoi(a) == Some(h.spaceID) && Atoi(b) == Some(h.filesystemID)
      ensures ParseVolumeHandle(volumeID) == Some(h)
    {
      SplitConcat(a, b, '/');
      SplitWithoutSeparator(a, '/');
      SplitWithoutSeparator(b, '/');
    }
  }

  lemma AcceptedSnapshotHandles(snapshotID: string, s: SnapshotHandle)
    ensures ParseSnapshotHandle(snapshotID) == Some(s) <==>
            exists a, b, c ::
              && TrimSpace(snapshotID) == a + "/" + (b + "/" + c) && '/' !in a && '/' !in b && '/' !in c
              && Atoi(a) == Some(s.spaceID) && Atoi(b) == Some(s.filesystemID) && Atoi(c) == Some(s.snapshotID)
  {
    var text := TrimSpace(snapshotID);
    if ParseSnapshotHandle(snapshotID) == Some(s) {
      var parts := Split(text, '/');
      JoinSplit(text, '/');
      assert parts[1..] == [parts[1], parts[2]] && parts[1..][1..] == [parts[2]];
      assert Join(parts[1..], ['/']) == parts[1] + "/" + parts[2];
      assert text == parts[0] + "/" + (parts[1] + "/" + parts[2]);
      assert parts[0] in parts && parts[1] in parts && parts[2] in parts;
    }
    forall a, b, c | text == a + "/" + (b + "/" + c) && '/' !in a && '/' !in b && '/' !in c
                     && Atoi(a) == Some(s.spaceID) && Atoi(b) == Some(s.filesystemID) && Atoi(c) == Some(s.snapshotID)
      ensures ParseSnapshotHandle(snapshotID) == Some(s)
    {
      SplitConcat(a, b + "/" + c, '/');
      SplitConcat(b, c, '/');
      SplitWithoutSeparator(a, '/');
      SplitWithoutSeparator(b, '/');
      SplitWithoutSeparator(c, '/');
    }
  }

  lemma EmptyIsNoNumber()
    ensures Atoi("") == None
  {
  }

  lemma VolumeHandleRoundTrip(spaceID: int, filesystemID: int)
    requires IsInt(spaceID) && IsInt(filesystemID)
    ensures ParseVolumeHandle(FormatVolumeHandle(spaceID, filesystemID)) == Some(Handle(spaceID, filesystemID))
  {
    var a, b := Itoa(spaceID), Itoa(filesystemID);
    ItoaCharacters(spaceID);
    ItoaCharacters(filesystemID);
    SplitPair(a, b);
    AtoiItoa(spaceID);
    AtoiItoa(filesystemID);
  }

  lemma SnapshotHandleRoundTrip(spaceID: int, filesystemID: int, snapshotID: int)
    requires IsInt(spaceID) && IsInt(filesystemID) && IsInt(snapshotID)
    ensures ParseSnapshotHandle(FormatSnapshotHandle(spaceID, filesystemID, snapshotID)) ==
            Some(SnapshotHandle(spaceID, filesystemID, snapshotID))
  {
    var a, b, c := Itoa(spaceID), Itoa(filesystemID), Itoa(snapshotID);
    ItoaCharacters(spaceID);
    ItoaCharacters(filesystemID);
    ItoaCharacters(snapshotID);
    SplitTriple(a, b, c);
    AtoiItoa(spaceID);
    AtoiItoa(filesystemID);
    AtoiItoa(snapshotID);
  }

  // Distinct filesystems have distinct lock keys.
  lemma FormatIsInjective(h: Handle, k: Handle)
    requires IsInt(h.spaceID) && IsInt(h.filesystemID) && IsInt(k.spaceID) && IsInt(k.filesystemID)
    ensures FormatVolumeHandle(h.spaceID, h.filesystemID) == FormatVolumeHandle(k.spaceID, k.filesystemID) <==> h == k
  {
    VolumeHandleRoundTrip(h.spaceID, h.filesystemID);
    VolumeHandleRoundTrip(k.spaceID, k.filesystemID);
  }

  lemma NotBothKinds(text: string)
    ensures !(ParseVolumeHandle(text).Some? && ParseSnapshotHandle(text).Some?)
  {
  }

  lemma EmptyIsNoHandle()
    ensures ParseVolumeHandle("") == None && Atoi("") == None
  {
  }

  // The parser also accepts text that the formatter never prints, such as
  // "+7/01" or text with surrounding blanks; the lock key is the text itself.
  predicate Canonical(volumeID: string) {
    match ParseVolumeHandle(volumeID)
    case None => false
    case Some(h) => FormatVolumeHandle(h.spaceID, h.filesystemID) == volumeID
  }

  lemma CanonicalMeansFormatted(volumeID: string)
    ensures Canonical(volumeID) <==>
            exists s, f :: IsInt(s) && IsInt(f) && volumeID == FormatVolumeHandle(s, f)
  {
    forall s, f | IsInt(s) && IsInt(f) && volumeID == FormatVolumeHandle(s, f)
      ensures Canonical(volumeID)
    {
      VolumeHandleRoundTrip(s, f);
    }
  }

  // Two canonical volume IDs are the same lock key exactly when they name the
  // same filesystem; without canonicity one filesystem has several keys.
  lemma CanonicalKeysAgree(a: string, b: string)
    requires Canonical(a) && Canonical(b)
    ensures a == b <==> ParseVolumeHandle(a) == ParseVolumeHandle(b)
  {
  }

  // A volume ID is the only canonical key of its filesystem exactly when it is
  // canonical itself.
  lemma OnlyCanonicalKeysAgree(volumeID: string)
    requires ParseVolumeHandle(volumeID).Some?
    ensures Canonical(volumeID) <==>
            forall other | Canonical(other) && ParseVolumeHandle(other) == ParseVolumeHandle(volumeID) ::
              other == volumeID
  {
    var h := ParseVolumeHandle(volumeID).value;
    VolumeHandleRoundTrip(h.spaceID, h.filesystemID);
    assert Canonical(FormatVolumeHandle(h.spaceID, h.filesystemID));
  }

  // Every filesystem in a non-negative space has a second spelling.
  lemma PlusSignIsAnotherSpelling(spaceID: int, filesystemID: int)
    requires IsInt(spaceID) && IsInt(filesystemID) && spaceID >= 0
    ensures var other := "+" + FormatVolumeHandle(spaceID, filesystemID);
            ParseVolumeHandle(other) == Some(Handle(spaceID, filesystemID)) && !Canonical(other)
  {
    var a, b := "+" + Itoa(spaceID), Itoa(filesystemID);
    var other := "+" + FormatVolumeHandle(spaceID, filesystemID);
    ItoaCharacters(spaceID);
    ItoaCharacters(filesystemID);
    assert other == a + "/" + b;
    SplitPair(a, b);
    PlusSign(spaceID);
    AtoiItoa(filesystemID);
  }

  lemma PlusSign(n: int)
    requires IsInt(n) && n >= 0
    ensures Atoi("+" + Itoa(n)) == Some(n)
  {
    AtoiItoa(n);
    ItoaCharacters(n);
    var s := Itoa(n);
    assert ("+" + s)[1..] == s;
    assert s[0] in s;
  }

  // No blank and no slash, as in a printed number
  predicate Solid(part: string) {
    forall c | c in part :: c !in WHITESPACE && c != '/'
  }

  // Solid parts, joined and trimmed, split again.
  lemma SplitPair(a: string, b: string)
    requires Solid(a) && Solid(b)
    ensures Split(TrimSpace(a + "/" + b), '/') == [a, b]
  {
    TrimSpaceOfSolid(a + "/" + b);
    assert [a, b][1..] == [b];
    assert Join([a, b], ['/']) == a + "/" + b;
    SplitJoin([a, b], '/');
  }

  lemma SplitTriple(a: string, b: string, c: string)
    requires Solid(a) && Solid(b) && Solid(c)
    ensures Split(TrimSpace(a + "/" + b + "/" + c), '/') == [a, b, c]
  {
    TrimSpaceOfSolid(a + "/" + b + "/" + c);
    assert [a, b, c][1..] == [b, c] && [b, c][1..] == [c];
    assert Join([b, c], ['/']) == b + "/" + c;
    assert Join([a, b, c], ['/']) == a + "/" + b + "/" + c;
    SplitJoin([a, b, c], '/');
  }
}
