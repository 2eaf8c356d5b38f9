// The text of the Packages index and the listing the publishing protocol works with (apt_repo.py): the file names and
// checksums read back from the index of a directory are the listing of that directory.
module IndexListing {
  import opened Prelude
  import opened Text
  import opened ControlStanza
  import A = AptRepository

  /** `fields["Filename"].removeprefix("./")`. */
  function FileName(fields: Fields): string
  {
    var value := Join(Get(fields, "Filename"));
    if |value| >= 2 && value[0] == '.' && value[1] == '/' then value[2..] else value
  }

  function Checksum(fields: Fields): string { Join(Get(fields, "SHA256")) }

  /** `{f["Filename"].removeprefix("./"): f["SHA256"] for f in stanzas}`. */
  function ReadListing(stanzas: seq<Fields>): map<string, string>
  {
    if stanzas == [] then map[]
    else
      var last := stanzas[|stanzas| - 1];
      ReadListing(stanzas[..|stanzas| - 1])[FileName(last) := Checksum(last)]
  }

  /** What `read_deb` says of a file of the directory; `hex` writes a digest. */
  ghost predicate EntryOf(e: DebEntry, files: A.Files, hex: A.Digest -> string)
  {
    GoodEntry(e) && e.name in files && A.IsDeb(e.name) && e.sha256 == hex(A.Sha256(files[e.name]))
  }

  /** One entry for every .deb file. */
  ghost predicate EntriesOf(entries: seq<DebEntry>, files: A.Files, hex: A.Digest -> string)
  {
    && (forall e :: e in entries ==> EntryOf(e, files, hex))
    && forall name :: name in files && A.IsDeb(name) ==> exists e :: e in entries && e.name == name
  }

  lemma RecoveredPair(fields: Fields, e: DebEntry)
    requires Recovers(fields, e)
    ensures FileName(fields) == e.name && Checksum(fields) == e.sha256
  {
    hide Get;
    JoinOne("./" + e.name);
    JoinOne(e.sha256);
    assert ("./" + e.name)[2..] == e.name;
  }

  lemma JoinOne(line: string)
    ensures Join([line]) == line
  {
  }

  lemma ReadLast(stanzas: seq<Fields>, e: DebEntry)
    requires stanzas != [] && Recovers(stanzas[|stanzas| - 1], e)
    ensures ReadListing(stanzas) == ReadListing(stanzas[..|stanzas| - 1])[e.name := e.sha256]
  {
    hide Recovers, FileName, Checksum;
    RecoveredPair(stanzas[|stanzas| - 1], e);
  }

  function FileNames(entries: seq<DebEntry>): (names: set<string>)
    ensures forall name :: name in names <==> exists e :: e in entries && e.name == name
  {
    set e | e in entries :: e.name
  }

  lemma FileNamesPush(entries: seq<DebEntry>, e: DebEntry)
    ensures FileNames(entries + [e]) == FileNames(entries) + {e.name}
  {
  }

  ghost predicate PairsFit(pairs: map<string, string>, files: A.Files, hex: A.Digest -> string)
  {
    forall name :: name in pairs ==> name in files && pairs[name] == hex(A.Sha256(files[name]))
  }

  lemma PairsPut(pairs: map<string, string>, e: DebEntry, files: A.Files, hex: A.Digest -> string)
    requires PairsFit(pairs, files, hex) && EntryOf(e, files, hex)
    ensures PairsFit(pairs[e.name := e.sha256], files, hex)
  {
    hide GoodEntry, A.IsDeb;
  }

  ghost predicate AllRecovered(stanzas: seq<Fields>, entries: seq<DebEntry>)
  {
    |stanzas| == |entries| && forall i :: 0 <= i < |entries| ==> Recovers(stanzas[i], entries[i])
  }

  lemma {:induction false} ReadPairs(stanzas: seq<Fields>, entries: seq<DebEntry>, files: A.Files, hex: A.Digest -> string)
    requires AllRecovered(stanzas, entries) && forall e :: e in entries ==> EntryOf(e, files, hex)
    ensures ReadListing(stanzas).Keys == FileNames(entries) && PairsFit(ReadListing(stanzas), files, hex)
  {
    hide Recovers, EntryOf;
    if stanzas == [] {
      assert ReadListing(stanzas) == map[];
    } else {
      hide ReadListing, FileNames, PairsFit;
      var n := |stanzas| - 1;
      var e := entries[n];
      assert entries == entries[..n] + [e] && e in entries;
      assert forall d :: d in entries[..n] ==> d in entries;
      ReadPairs(stanzas[..n], entries[..n], files, hex);
      ReadLast(stanzas, e);
      FileNamesPush(entries[..n], e);
      PairsPut(ReadListing(stanzas[..n]), e, files, hex);
    }
  }

  /** The listing read from the index text of a directory is the directory's listing, digest by digest. */
  lemma IndexIsListing(entries: seq<DebEntry>, files: A.Files, hex: A.Digest -> string)
    requires EntriesOf(entries, files, hex) && GoodEntries(entries)
    ensures Published(IndexText(entries)).Ok?
    ensures ReadListing(Published(IndexText(entries)).value)
         == map name | name in A.ListingOf(files) :: hex(A.ListingOf(files)[name])
  {
    hide GoodEntry, Printable, Published, IndexText, Ordered, Recovers, ReadListing, A.IsDeb;
    PackagesRoundTrip(entries);
    var ordered, read := Ordered(entries), Published(IndexText(entries)).value;
    OrderedMembers(entries);
    forall e | e in ordered ensures EntryOf(e, files, hex) {
      assert e in entries;
    }
    ReadPairs(read, ordered, files, hex);
    forall name ensures name in ReadListing(read) <==> name in A.ListingOf(files) {
      if name in ReadListing(read) {
        var e :| e in ordered && e.name == name;
        assert EntryOf(e, files, hex);
      }
      if name in A.ListingOf(files) {
        var e :| e in entries && e.name == name;
        assert e in ordered;
      }
    }
  }

  /** As different digests are written differently, comparing the texts of two checksums compares the files. */
  lemma ChecksumsDecide(entries: seq<DebEntry>, files: A.Files, hex: A.Digest -> string, name: string, file: A.File)
    requires EntriesOf(entries, files, hex) && GoodEntries(entries)
    requires forall a, b :: hex(a) == hex(b) ==> a == b
    requires name in files && A.IsDeb(name)
    ensures Published(IndexText(entries)).Ok?
    ensures var read := ReadListing(Published(IndexText(entries)).value);
            name in read && (read[name] == hex(A.Sha256(file)) <==> files[name] == file)
  {
    hide EntriesOf, GoodEntry, Printable, Published, IndexText, ReadListing, A.IsDeb;
    IndexIsListing(entries, files, hex);
  }
}
