/** The list of resource packs offered to players: which configured names
    become entries, what each entry holds, and which one a player gets. */
module Packs {
  import opened JavaText
  import opened Http

  /** One loaded pack: its file name, the URL players download it from and
      the digest of its bytes. */
  datatype PackInfo = PackInfo(filename: string, url: string, hash: seq<Byte>)

  /** The configuration keys naming the packs, in loading order. */
  const PackKeys: seq<string> := ["resource_packs1", "resource_packs2", "resource_packs3"]

  /** loadSinglePack's outcome for one configured name: an entry when the
      name is non-empty and names a regular file whose bytes can be read
      (a directory or an unreadable file makes the read throw, which is
      caught and logged); nothing otherwise. */
  function PackFor(name: string, folder: Folder, baseUrl: string, digest: seq<Byte> -> seq<Byte>): (r: Option<PackInfo>)
    ensures r.Some? <==> name != "" && name in folder && folder[name].Regular?
  {
    if name != "" && name in folder && folder[name].Regular? then
      Some(PackInfo(name, baseUrl + name, digest(folder[name].data)))
    else None
  }

  function OptionList(o: Option<PackInfo>): (r: seq<PackInfo>)
    ensures |r| <= 1
  {
    if o.Some? then [o.value] else []
  }

  /** The list loadResourcePacks builds from the configured names. */
  function LoadedPacks(names: seq<string>, folder: Folder, baseUrl: string, digest: seq<Byte> -> seq<Byte>): (r: seq<PackInfo>)
    ensures |r| <= |names|
  {
    if names == [] then []
    else OptionList(PackFor(names[0], folder, baseUrl, digest)) + LoadedPacks(names[1..], folder, baseUrl, digest)
  }

  /** An entry that downloads from the base URL followed by its own name,
      carries the digest of that file's bytes and names one of `names`. */
  predicate SoundEntry(p: PackInfo, names: seq<string>, folder: Folder, baseUrl: string, digest: seq<Byte> -> seq<Byte>) {
    && p.filename in names
    && p.filename in folder && folder[p.filename].Regular?
    && p.url == baseUrl + p.filename
    && p.hash == digest(folder[p.filename].data)
  }

  /** The list for three names is the entries of each, in order. */
  lemma LoadedPacksOfThree(a: string, b: string, c: string, folder: Folder, baseUrl: string, digest: seq<Byte> -> seq<Byte>)
    ensures LoadedPacks([a, b, c], folder, baseUrl, digest) ==
              OptionList(PackFor(a, folder, baseUrl, digest)) + OptionList(PackFor(b, folder, baseUrl, digest))
              + OptionList(PackFor(c, folder, baseUrl, digest))
  {
    var pa := OptionList(PackFor(a, folder, baseUrl, digest));
    var pb := OptionList(PackFor(b, folder, baseUrl, digest));
    var pc := OptionList(PackFor(c, folder, baseUrl, digest));
    assert [c][1..] == [];
    assert LoadedPacks([c], folder, baseUrl, digest) == pc + [];
    assert [b, c][1..] == [c];
    assert LoadedPacks([b, c], folder, baseUrl, digest) == pb + pc;
    assert [a, b, c][1..] == [b, c];
    assert LoadedPacks([a, b, c], folder, baseUrl, digest) == pa + (pb + pc);
  }

  /** Every loaded entry is sound. */
  lemma {:induction false} LoadedPacksSound(names: seq<string>, folder: Folder, baseUrl: string, digest: seq<Byte> -> seq<Byte>)
    ensures forall i :: 0 <= i < |LoadedPacks(names, folder, baseUrl, digest)| ==>
              SoundEntry(LoadedPacks(names, folder, baseUrl, digest)[i], names, folder, baseUrl, digest)
  {
    if names != [] {
      LoadedPacksSound(names[1..], folder, baseUrl, digest);
      var head := OptionList(PackFor(names[0], folder, baseUrl, digest));
      var tail := LoadedPacks(names[1..], folder, baseUrl, digest);
      var r := LoadedPacks(names, folder, baseUrl, digest);
      assert r == head + tail;
      forall i | 0 <= i < |r|
        ensures SoundEntry(r[i], names, folder, baseUrl, digest)
      {
        if i >= |head| {
          var j := i - |head|;
          assert r[i] == tail[j];
          assert SoundEntry(tail[j], names[1..], folder, baseUrl, digest);
          var k :| 0 <= k < |names[1..]| && names[1..][k] == tail[j].filename;
          assert names[k + 1] == tail[j].filename;
        } else {
          assert r[i] == PackFor(names[0], folder, baseUrl, digest).value;
          assert names[0] in names;
        }
      }
    }
  }

  /** The first entry comes from the first configured name that can be
      loaded, and the list is empty exactly when no name can be. */
  lemma {:induction false} FirstLoadedIsFirstLoadable(names: seq<string>, folder: Folder, baseUrl: string, digest: seq<Byte> -> seq<Byte>, k: nat)
    requires k < |names| && PackFor(names[k], folder, baseUrl, digest).Some?
    requires forall j :: 0 <= j < k ==> PackFor(names[j], folder, baseUrl, digest).None?
    ensures var r := LoadedPacks(names, folder, baseUrl, digest);
            |r| > 0 && r[0] == PackFor(names[k], folder, baseUrl, digest).value
  {
    if k > 0 {
      FirstLoadedIsFirstLoadable(names[1..], folder, baseUrl, digest, k - 1);
    }
  }

  lemma {:induction false} NothingLoadable(names: seq<string>, folder: Folder, baseUrl: string, digest: seq<Byte> -> seq<Byte>)
    ensures LoadedPacks(names, folder, baseUrl, digest) == [] <==>
            forall j :: 0 <= j < |names| ==> PackFor(names[j], folder, baseUrl, digest).None?
  {
    if names != [] {
      NothingLoadable(names[1..], folder, baseUrl, digest);
      if PackFor(names[0], folder, baseUrl, digest).None? {
        assert forall j :: 1 <= j < |names| ==> names[j] == names[1..][j - 1];
      }
    }
  }

  /** Naming the same loadable file under all three keys gives three equal
      entries: duplicates are kept. */
  lemma DuplicatesKept(name: string, folder: Folder, baseUrl: string, digest: seq<Byte> -> seq<Byte>)
    requires PackFor(name, folder, baseUrl, digest).Some?
    ensures var r := LoadedPacks([name, name, name], folder, baseUrl, digest);
            |r| == 3 && r[0] == r[1] == r[2]
  {
    var p := PackFor(name, folder, baseUrl, digest).value;
    assert [name][1..] == [];
    assert LoadedPacks([name], folder, baseUrl, digest) == [p];
    assert [name, name][1..] == [name];
    assert LoadedPacks([name, name], folder, baseUrl, digest) == [p, p];
    assert [name, name, name][1..] == [name, name];
    assert LoadedPacks([name, name, name], folder, baseUrl, digest) == [p, p, p];
  }

  /** applyResourcePacks' choice: nothing for an empty list, otherwise the
      first entry, with the force flag passed through. */
  function PackToApply(packs: seq<PackInfo>, force: bool): (r: Option<(PackInfo, bool)>)
    ensures r.None? <==> packs == []
    ensures r.Some? ==> r.value.0 == packs[0] && r.value.1 == force
  {
    if packs == [] then None else Some((packs[0], force))
  }

  /** A player is offered the pack of the first configured name that loads,
      whatever the later names are. */
  lemma AppliedPackIsFirstLoadable(names: seq<string>, folder: Folder, baseUrl: string, digest: seq<Byte> -> seq<Byte>, k: nat, force: bool)
    requires k < |names| && PackFor(names[k], folder, baseUrl, digest).Some?
    requires forall j :: 0 <= j < k ==> PackFor(names[j], folder, baseUrl, digest).None?
    ensures var a := PackToApply(LoadedPacks(names, folder, baseUrl, digest), force);
            a.Some? && a.value.0.filename == names[k] && a.value.0.url == baseUrl + names[k]
  {
    FirstLoadedIsFirstLoadable(names, folder, baseUrl, digest, k);
  }
}
