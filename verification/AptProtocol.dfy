// The publishing protocol over whole runs: one publisher at a time pulls, adds files, indexes, signs and publishes, and
// may die between any two PUTs; a client fetches the signed index and the package list at different times.
module AptProtocol {
  import opened Prelude
  import opened AptRepository

  // ----- PUTs, one file name at a time -----

  ghost predicate Touches(uploads: seq<Upload>, name: string) { exists u :: u in uploads && u.name == name }

  ghost predicate SameAt(a: Files, b: Files, name: string)
  {
    (name in a <==> name in b) && (name in a ==> a[name] == b[name])
  }

  lemma {:induction false} PutAllElsewhere(registry: Files, uploads: seq<Upload>, name: string)
    requires !Touches(uploads, name)
    ensures SameAt(registry, PutAll(registry, uploads), name)
    decreases |uploads|
  {
    if uploads == [] {
    } else {
      assert uploads[0] in uploads;
      assert forall u :: u in uploads[1..] ==> u in uploads;
      PutAllElsewhere(registry[uploads[0].name := uploads[0].file], uploads[1..], name);
    }
  }

  lemma {:induction false} PutAllHas(registry: Files, uploads: seq<Upload>, name: string, file: File)
    requires forall u :: u in uploads && u.name == name ==> u.file == file
    requires Touches(uploads, name) || (name in registry && registry[name] == file)
    ensures name in PutAll(registry, uploads) && PutAll(registry, uploads)[name] == file
    decreases |uploads|
  {
    if uploads == [] {
    } else {
      assert uploads[0] in uploads && uploads == [uploads[0]] + uploads[1..];
      assert forall u :: u in uploads[1..] ==> u in uploads;
      PutAllHas(registry[uploads[0].name := uploads[0].file], uploads[1..], name, file);
    }
  }

  /** Only the files that are not uploaded matter for where the PUTs start. */
  lemma {:induction false} PutAllAgree(a: Files, b: Files, uploads: seq<Upload>)
    requires forall name :: !Touches(uploads, name) ==> SameAt(a, b, name)
    ensures PutAll(a, uploads) == PutAll(b, uploads)
    decreases |uploads|
  {
    if uploads == [] {
      forall name ensures name in a.Keys <==> name in b.Keys {
        assert !Touches(uploads, name);
        assert SameAt(a, b, name);
      }
      assert a.Keys == b.Keys;
      forall name | name in a ensures a[name] == b[name] {
        assert !Touches(uploads, name);
        assert SameAt(a, b, name);
      }
    } else {
      var u, rest := uploads[0], uploads[1..];
      var a', b' := a[u.name := u.file], b[u.name := u.file];
      assert uploads == [u] + rest;
      forall name | !Touches(rest, name) ensures SameAt(a', b', name) {
        if name != u.name {
          assert !Touches(uploads, name);
          assert SameAt(a, b, name);
        }
      }
      PutAllAgree(a', b', rest);
    }
  }

  /** Uploading what is there already changes nothing. */
  lemma {:induction false} PutAllAgain(registry: Files, uploads: seq<Upload>)
    requires forall u :: u in uploads ==> u.name in registry && registry[u.name] == u.file
    ensures PutAll(registry, uploads) == registry
    decreases |uploads|
  {
    if uploads == [] {
    } else {
      assert uploads[0] in uploads;
      assert registry[uploads[0].name := uploads[0].file] == registry;
      PutAllAgain(registry, uploads[1..]);
    }
  }

  // ----- Listings -----

  /** Every listed file is there with the listed checksum. */
  ghost predicate Holds(registry: Files, listing: Listing)
  {
    forall name :: name in listing ==> IsDeb(name) && name in registry && Sha256(registry[name]) == listing[name]
  }

  ghost predicate Within(a: Listing, b: Listing)
  {
    forall name :: name in a ==> name in b && b[name] == a[name]
  }

  ghost predicate JustIndexed(files: Files)
  {
    && "Packages" in files && files["Packages"] == Packages(ListingOf(files))
    && "Packages.gz" in files && files["Packages.gz"] == Gzip(Packages(ListingOf(files)))
    && "Release" in files && ReleaseOf(files["Release"], ListingOf(files))
  }

  ghost predicate ReleaseOf(file: File, listing: Listing)
  {
    file.Release? && file.packages == Sha256(Packages(listing)) && file.gzip == Sha256(Gzip(Packages(listing)))
  }

  ghost predicate JustSigned(files: Files)
  {
    && JustIndexed(files)
    && "InRelease" in files && files["InRelease"] == ClearSigned(files["Release"])
    && "Release.gpg" in files && files["Release.gpg"] == DetachedSignature(files["Release"])
  }

  lemma NotDeb(name: string)
    requires |name| >= 4 && name[|name| - 3] != 'd'
    ensures !IsDeb(name)
  {
    assert name[|name| - 3] == name[|name| - 4..][1];
  }

  lemma IndexNamesAreNotDebs()
    ensures forall name :: name in INDEX_FILES ==> !IsDeb(name)
  {
    NotDeb("Packages");
    NotDeb("Packages.gz");
    NotDeb("Release");
    NotDeb("InRelease");
    NotDeb("Release.gpg");
  }

  /** Changing files that are not .deb files leaves the listing alone. */
  lemma SameListing(a: Files, b: Files)
    requires forall name :: IsDeb(name) ==> SameAt(a, b, name)
    ensures ListingOf(a) == ListingOf(b)
  {
    forall name ensures name in ListingOf(a) <==> name in ListingOf(b) {
      if IsDeb(name) { assert SameAt(a, b, name); }
    }
    forall name | name in ListingOf(a) ensures ListingOf(a)[name] == ListingOf(b)[name] {
      assert SameAt(a, b, name);
    }
  }

  lemma ReindexedFiles(files: Files, date: string)
    ensures var now, packages := Reindexed(files, date), Packages(ListingOf(files));
            && "Packages" in now && now["Packages"] == packages
            && "Packages.gz" in now && now["Packages.gz"] == Gzip(packages)
            && "Release" in now && now["Release"] == Release(Sha256(packages), Sha256(Gzip(packages)), date)
    ensures forall name :: name !in INDEX_FILES ==> SameAt(files, Reindexed(files, date), name)
  {
    hide ListingOf;
    assert |"Packages"| == 8 && |"Packages.gz"| == 11 && |"Release"| == 7 && |"InRelease"| == 9 && |"Release.gpg"| == 11;
    assert "Packages.gz"[0] == 'P' && "Release.gpg"[0] == 'R';
  }

  lemma ReindexedIsIndexed(files: Files, date: string)
    ensures JustIndexed(Reindexed(files, date))
    ensures forall name :: name !in INDEX_FILES ==> SameAt(files, Reindexed(files, date), name)
  {
    hide Reindexed, IsDeb, ListingOf;
    ReindexedFiles(files, date);
    IndexNamesAreNotDebs();
    SameListing(files, Reindexed(files, date));
  }

  lemma SigningIsSigned(files: Files)
    requires JustIndexed(files)
    ensures JustSigned(SignedFiles(files)) && JustIndexed(files["InRelease" := ClearSigned(files["Release"])])
  {
    IndexNamesAreNotDebs();
    SameListing(files, SignedFiles(files));
    SameListing(files, files["InRelease" := ClearSigned(files["Release"])]);
  }

  // ----- One publish -----

  lemma {:induction false} NewFilesAre(files: Files, names: seq<string>, already: Listing)
    requires (forall name :: name in names ==> name in files) && NewFiles(files, names, already).Ok?
    ensures var added := NewFiles(files, names, already).value;
            && (forall u :: u in added ==> u.name in names && u.name !in already && u.file == files[u.name])
            && (forall name :: name in names && name in already ==> already[name] == Sha256(files[name]))
            && (forall name :: name in names && name !in already ==> Upload(name, files[name]) in added)
  {
    if names == [] {
    } else {
      var n := |names| - 1;
      assert names == names[..n] + [names[n]];
      NewFilesAre(files, names[..n], already);
    }
  }

  /** What the protocol asks of `--extra`: names distinct from the repository's own files. */
  ghost predicate ExtraNames(extra: seq<Upload>)
  {
    forall u :: u in extra ==> !IsDeb(u.name) && u.name !in INDEX_FILES
  }

  /** The files a publish uploads before the index. */
  ghost predicate FrontOf(front: seq<Upload>, files: Files, registry: Files, already: Listing)
  {
    && (forall u :: u in front ==> u.name !in already && u.name !in INDEX_FILES)
    && (forall u :: u in front && IsDeb(u.name) ==> u.name in files && u.file == files[u.name])
    && (forall name :: name in files && IsDeb(name) && name in already ==> already[name] == Sha256(files[name]))
    && (forall name :: name in files && IsDeb(name) && name !in already ==> Touches(front, name))
  }

  /** A plan is the files before the index, then the index with InRelease last. */
  lemma PlanShape(files: Files, registry: Files, names: seq<string>, extra: seq<Upload>, already: Listing)
    returns (front: seq<Upload>)
    requires Globbed(names, files) && ExtraNames(extra) && PublishedListing(registry) == Ok(already)
    requires Holds(registry, already) && Plan(files, registry, names, extra).Ok?
    ensures HasIndex(files) && Plan(files, registry, names, extra).value == front + IndexUploads(files)
    ensures FrontOf(front, files, registry, already)
    ensures front == extra + NewFiles(files, names, already).value
  {
    FirstMissingNone(files, INDEX_FILES);
    var added := NewFiles(files, names, already).value;
    NewFilesAre(files, names, already);
    front := extra + added;
    IndexNamesAreNotDebs();
    forall u | u in front
      ensures u.name !in already && u.name !in INDEX_FILES
      ensures IsDeb(u.name) ==> u.name in files && u.file == files[u.name]
    {
      if u in extra { assert !IsDeb(u.name); } else { assert u in added && u.name in names; }
    }
    forall name | name in files && IsDeb(name) && name !in already ensures Touches(front, name) {
      assert name in names;
      assert Upload(name, files[name]) in front;
    }
  }

  /** Before the index goes up, nothing listed has changed and everything the new index lists is there. */
  lemma FrontUploaded(front: seq<Upload>, files: Files, registry: Files, already: Listing)
    requires FrontOf(front, files, registry, already) && Holds(registry, already)
    ensures Holds(PutAll(registry, front), ListingOf(files))
  {
    var now, listing := PutAll(registry, front), ListingOf(files);
    forall name | name in listing ensures name in now && Sha256(now[name]) == listing[name] {
      if name in already {
        assert !Touches(front, name);
        PutAllElsewhere(registry, front, name);
      } else {
        PutAllHas(registry, front, name, files[name]);
      }
    }
  }

  /** The index files do not touch what an index lists. */
  lemma IndexUploaded(files: Files, registry: Files, n: nat, listing: Listing)
    requires HasIndex(files) && n <= 5 && Holds(registry, listing)
    ensures Holds(PutAll(registry, IndexUploads(files)[..n]), listing)
  {
    IndexNamesAreNotDebs();
    var uploads := IndexUploads(files)[..n];
    var now := PutAll(registry, uploads);
    forall name | name in listing ensures name in now && Sha256(now[name]) == listing[name] {
      assert forall u :: u in uploads ==> u.name in INDEX_FILES;
      assert !Touches(uploads, name);
      PutAllElsewhere(registry, uploads, name);
    }
  }

  /** The package list a registry shows after n of the index files went up. */
  lemma ListingShown(files: Files, registry: Files, n: nat)
    requires JustSigned(files) && 1 <= n <= 5
    ensures HasIndex(files) && PublishedListing(PutAll(registry, IndexUploads(files)[..n])) == Ok(ListingOf(files))
  {
    hide ListingOf;
    var uploads := IndexUploads(files)[..n];
    assert |"Packages"| == 8 && |"Packages.gz"| == 11 && |"Release"| == 7 && |"InRelease"| == 9 && |"Release.gpg"| == 11;
    assert uploads[0] == Upload("Packages", files["Packages"]);
    PutAllHas(registry, uploads, "Packages", files["Packages"]);
  }

  lemma ListingStays(front: seq<Upload>, registry: Files)
    requires forall u :: u in front ==> u.name !in INDEX_FILES
    ensures PublishedListing(PutAll(registry, front)) == PublishedListing(registry)
    ensures forall name :: name in INDEX_FILES ==> SameAt(registry, PutAll(registry, front), name)
  {
    forall name | name in INDEX_FILES ensures SameAt(registry, PutAll(registry, front), name) {
      assert !Touches(front, name);
      PutAllElsewhere(registry, front, name);
    }
    assert "Packages" in INDEX_FILES;
    assert SameAt(registry, PutAll(registry, front), "Packages");
  }

  lemma ListedStays(front: seq<Upload>, registry: Files, already: Listing)
    requires Holds(registry, already) && forall u :: u in front ==> u.name !in already
    ensures Holds(PutAll(registry, front), already)
  {
    var now := PutAll(registry, front);
    forall name | name in already ensures name in now && Sha256(now[name]) == already[name] {
      assert !Touches(front, name);
      PutAllElsewhere(registry, front, name);
    }
  }

  /** A publish stopped anywhere: every file the registry's package list names is there with its checksum, and no file
      that was listed before has changed. Nothing here asks for a pull first. */
  lemma StoppedPublishIsSafe(files: Files, registry: Files, names: seq<string>, extra: seq<Upload>, puts: nat)
    requires Globbed(names, files) && JustSigned(files) && ExtraNames(extra)
    requires PublishedListing(registry).Ok? && Holds(registry, PublishedListing(registry).value)
    requires var plan := Plan(files, registry, names, extra); plan.Ok? && puts <= |plan.value|
    ensures var now, before := PutAll(registry, Plan(files, registry, names, extra).value[..puts]),
                               PublishedListing(registry).value;
            && PublishedListing(now).Ok? && PublishedListing(now).value in {before, ListingOf(files)}
            && Holds(now, PublishedListing(now).value)
            && Holds(now, before)
  {
    hide ListingOf, Plan, Globbed, PutAll, PublishedListing, FrontOf;
    var already := PublishedListing(registry).value;
    var front := PlanShape(files, registry, names, extra, already);
    var index, queue := IndexUploads(files), front + IndexUploads(files);
    FrontNames(front, files, registry, already);
    if puts <= |front| {
      assert queue[..puts] == front[..puts];
      ListingStays(front[..puts], registry);
      ListedStays(front[..puts], registry, already);
    } else {
      var n := puts - |front|;
      assert queue[..puts] == front + index[..n];
      PutAllAppend(registry, front, index[..n]);
      var middle := PutAll(registry, front);
      ListedStays(front, registry, already);
      FrontUploaded(front, files, registry, already);
      IndexUploaded(files, middle, n, ListingOf(files));
      IndexUploaded(files, middle, n, already);
      ListingShown(files, middle, n);
    }
  }

  lemma FrontNames(front: seq<Upload>, files: Files, registry: Files, already: Listing)
    requires FrontOf(front, files, registry, already)
    ensures forall u :: u in front ==> u.name !in already && u.name !in INDEX_FILES
  {
  }

  /** A finished publish keeps everything that was listed exactly when the directory holds every listed name: what a
      pull before indexing brings about. */
  lemma ListedSetKeptIff(files: Files, registry: Files, names: seq<string>, extra: seq<Upload>)
    requires Globbed(names, files) && JustSigned(files) && ExtraNames(extra)
    requires PublishedListing(registry).Ok? && Holds(registry, PublishedListing(registry).value)
    requires Plan(files, registry, names, extra).Ok?
    ensures var now, before := PutAll(registry, Plan(files, registry, names, extra).value), PublishedListing(registry).value;
            && PublishedListing(now) == Ok(ListingOf(files))
            && (Within(before, PublishedListing(now).value) <==> forall name :: name in before ==> name in files)
  {
    hide Plan, PutAll, PublishedListing;
    var already := PublishedListing(registry).value;
    var front := PlanShape(files, registry, names, extra, already);
    var index := IndexUploads(files);
    PutAllAppend(registry, front, index);
    assert index[..5] == index;
    ListingShown(files, PutAll(registry, front), 5);
    forall name | name in already ensures name in files <==> name in ListingOf(files) && ListingOf(files)[name] == already[name] {
      assert IsDeb(name);
    }
  }

  lemma OneNewFile(files: Files, name: string, already: Listing)
    requires name in files && name !in already
    ensures NewFiles(files, [name], already) == Ok([Upload(name, files[name])])
  {
    var names := [name];
    assert names[..|names| - 1] == [];
    assert NewFiles(files, names[..|names| - 1], already) == Ok([]);
    assert [] + [Upload(name, files[name])] == [Upload(name, files[name])];
  }

  lemma OneFileIndexed(start: Files, name: string, file: File, files: Files)
    requires IsDeb(name) && start == map[name := file] && files == SignedFiles(Reindexed(start, ""))
    ensures Globbed([name], files) && files[name] == file && JustSigned(files)
    ensures ListingOf(files) == map[name := Sha256(file)]
  {
    hide IsDeb, Reindexed;
    IndexNamesAreNotDebs();
    ReindexedIsIndexed(start, "");
    SigningIsSigned(Reindexed(start, ""));
    assert "InRelease" in INDEX_FILES && "Release.gpg" in INDEX_FILES;
    assert name !in INDEX_FILES;
    assert SameAt(start, Reindexed(start, ""), name);
    assert name in files && files[name] == file;
    forall other | other in files && IsDeb(other) ensures other == name {
      assert other !in INDEX_FILES;
      assert SameAt(start, Reindexed(start, ""), other);
    }
    assert forall other :: other in ListingOf(files) <==> other == name;
  }

  /** A publisher that indexes a directory without pulling first takes the old package off the list. */
  lemma UnpulledPublishShrinks(stale: string, staleFile: File, added: string, addedFile: File)
    returns (registry: Files, files: Files)
    requires IsDeb(stale) && IsDeb(added) && stale != added
    ensures PublishedListing(registry) == Ok(map[stale := Sha256(staleFile)]) && Holds(registry, map[stale := Sha256(staleFile)])
    ensures JustSigned(files) && Globbed([added], files) && Plan(files, registry, [added], []).Ok?
    ensures PublishedListing(PutAll(registry, Plan(files, registry, [added], []).value)) == Ok(map[added := Sha256(addedFile)])
  {
    hide IsDeb, PutAll, ListingOf, NewFiles;
    var listing := map[stale := Sha256(staleFile)];
    IndexNamesAreNotDebs();
    registry := map[stale := staleFile]["Packages" := Packages(listing)];
    assert PublishedListing(registry) == Ok(listing);
    files := SignedFiles(Reindexed(map[added := addedFile], ""));
    OneFileIndexed(map[added := addedFile], added, addedFile, files);
    OneNewFile(files, added, listing);
    FirstMissingNone(files, INDEX_FILES);
    ListedSetKeptIff(files, registry, [added], []);
  }

  // ----- Runs -----

  /** What the publisher is doing in its directory. */
  datatype Phase = Working | Indexed | Signed | Publishing(queue: seq<Upload>)

  /** `history` records every package list that was ever uploaded; `pulled`, that this directory had a whole pull. */
  datatype State = State(registry: Files, files: Files, pulled: bool, phase: Phase, history: seq<Listing>)

  datatype Action =
    | NewDirectory(files: Files)
    | Write(name: string, file: File)
    | Pull
    | Index(names: seq<string>, date: string)
    | SignHalf
    | Sign
    | Publish(names: seq<string>, extra: seq<Upload>)
    | Put
    | Stop

  /** One step. A new directory stands for a publisher that died, Stop for one that failed between two PUTs and may
      publish the same directory again. Writing a file (a build, or what a failed pull left) asks for a new index. */
  ghost predicate Step(s: State, action: Action, t: State)
  {
    match action
    case NewDirectory(files) => t == s.(files := files, pulled := false, phase := Working)
    case Write(name, file) => t == s.(files := s.files[name := file], phase := Working)
    case Pull => PullStep(s, t)
    case Index(names, date) =>
      && Globbed(names, s.files) && IndexError(s.files, names) == None
      && t == s.(files := Reindexed(s.files, date), phase := Indexed)
    case SignHalf =>
      && (s.phase.Indexed? || s.phase.Signed?) && "Release" in s.files
      && t == s.(files := s.files["InRelease" := ClearSigned(s.files["Release"])], phase := Indexed)
    case Sign =>
      && (s.phase.Indexed? || s.phase.Signed?) && "Release" in s.files
      && t == s.(files := SignedFiles(s.files), phase := Signed)
    case Publish(names, extra) => PublishStep(s, names, extra, t)
    case Put => PutStep(s, t)
    case Stop => s.phase.Publishing? && t == s.(phase := Signed)
  }

  ghost predicate PullStep(s: State, t: State)
  {
    && PublishedListing(s.registry).Ok? && CanPull(s.files, s.registry, PublishedListing(s.registry).value)
    && t == s.(files := Pulled(s.files, s.registry, PublishedListing(s.registry).value), pulled := true, phase := Working)
  }

  ghost predicate PublishStep(s: State, names: seq<string>, extra: seq<Upload>, t: State)
  {
    && s.phase.Signed? && s.pulled && Globbed(names, s.files) && ExtraNames(extra)
    && Plan(s.files, s.registry, names, extra).Ok?
    && t == s.(phase := Publishing(Plan(s.files, s.registry, names, extra).value))
  }

  ghost predicate PutStep(s: State, t: State)
  {
    && s.phase.Publishing? && s.phase.queue != []
    && var u := s.phase.queue[0];
       t == s.(registry := s.registry[u.name := u.file], phase := Publishing(s.phase.queue[1..]),
               history := if u.name == "Packages" && u.file.Packages? then s.history + [u.file.listed] else s.history)
  }

  /** No repository yet. */
  ghost predicate Init(s: State)
  {
    s.phase == Working && !s.pulled && s.history == [] && forall name :: name in INDEX_FILES ==> name !in s.registry
  }

  ghost predicate Run(states: seq<State>, actions: seq<Action>)
  {
    && |states| == |actions| + 1 && Init(states[0])
    && forall i :: 0 <= i < |actions| ==> Step(states[i], actions[i], states[i + 1])
  }

  /** The package list the registry shows. */
  function Last(history: seq<Listing>): Listing { if history == [] then map[] else history[|history| - 1] }

  function Current(s: State): Listing { Last(s.history) }

  // ----- The invariant -----

  ghost predicate HistoryHolds(registry: Files, history: seq<Listing>)
  {
    forall i :: 0 <= i < |history| ==> Holds(registry, history[i]) && Within(history[i], Last(history))
  }

  /** The Release file a signature file vouches for: a signature verifies only what was signed. */
  function Vouched(signature: File): Option<File>
  {
    match signature
    case ClearSigned(release) => Some(release)
    case DetachedSignature(release) => Some(release)
    case _ => None
  }

  ghost predicate SignsHistory(signature: File, history: seq<Listing>)
  {
    Vouched(signature).Some? && exists i :: 0 <= i < |history| && ReleaseOf(Vouched(signature).value, history[i])
  }

  ghost predicate SignaturesKnown(registry: Files, history: seq<Listing>)
  {
    && ("InRelease" in registry ==> SignsHistory(registry["InRelease"], history))
    && ("Release.gpg" in registry ==> SignsHistory(registry["Release.gpg"], history))
  }

  ghost predicate RegistryFits(registry: Files, history: seq<Listing>)
  {
    && Holds(registry, Last(history)) && PublishedListing(registry) == Ok(Last(history))
    && HistoryHolds(registry, history) && SignaturesKnown(registry, history)
  }

  ghost predicate DirectoryFits(s: State)
  {
    && (s.pulled ==> forall name :: name in Current(s) ==> name in s.files)
    && (!s.phase.Working? ==> JustIndexed(s.files))
    && (s.phase.Signed? || s.phase.Publishing? ==> JustSigned(s.files))
  }

  /** What is still to upload: some files before the index and the whole index, or the rest of the index. */
  ghost predicate QueueFits(s: State)
    requires JustSigned(s.files) && s.phase.Publishing?
  {
    var queue, index, listing := s.phase.queue, IndexUploads(s.files), ListingOf(s.files);
    if |queue| >= 5 then
      && queue[|queue| - 5..] == index && Within(Current(s), listing)
      && FrontFits(s, queue[..|queue| - 5])
    else
      queue == index[5 - |queue|..] && Current(s) == listing && s.history != []
  }

  ghost predicate FrontFits(s: State, front: seq<Upload>)
  {
    && (forall u :: u in front ==> u.name !in Current(s) && u.name !in INDEX_FILES)
    && Holds(PutAll(s.registry, front), ListingOf(s.files))
  }

  ghost predicate Inv(s: State)
  {
    && RegistryFits(s.registry, s.history) && DirectoryFits(s)
    && (s.phase.Publishing? ==> s.pulled && QueueFits(s))
  }

  lemma InitInv(s: State)
    requires Init(s)
    ensures Inv(s)
  {
    assert "Packages" in INDEX_FILES && "InRelease" in INDEX_FILES && "Release.gpg" in INDEX_FILES;
  }

  lemma ReindexKeepsDebs(files: Files, date: string, listing: Listing, registry: Files)
    requires Holds(registry, listing) && forall name :: name in listing ==> name in files
    ensures forall name :: name in listing ==> name in Reindexed(files, date)
  {
    hide Reindexed;
    IndexNamesAreNotDebs();
    ReindexedIsIndexed(files, date);
    forall name | name in listing ensures name in Reindexed(files, date) {
      assert IsDeb(name);
      assert SameAt(files, Reindexed(files, date), name);
    }
  }

  /** Steps on the directory alone. */
  lemma LocalInv(s: State, action: Action, t: State)
    requires Inv(s) && Step(s, action, t) && !action.Put? && !action.Publish?
    ensures Inv(t)
  {
    hide Holds, Reindexed, ListingOf, SignaturesKnown, HistoryHolds, JustIndexed, IsDeb;
    assert RegistryFits(t.registry, t.history);
    match action {
      case NewDirectory(files) =>
      case Write(name, file) =>
      case Pull =>
      case Index(names, date) =>
        ReindexedIsIndexed(s.files, date);
        if s.pulled { ReindexKeepsDebs(s.files, date, Current(s), s.registry); }
      case SignHalf => SigningIsSigned(s.files);
      case Sign => SigningIsSigned(s.files);
      case Stop =>
    }
  }

  /** The new list contains the current one when the directory was pulled. */
  lemma PublishInv(s: State, names: seq<string>, extra: seq<Upload>, t: State)
    requires Inv(s) && PublishStep(s, names, extra, t)
    ensures Inv(t)
  {
    hide PutAll, Plan, PublishedListing, SignaturesKnown, HistoryHolds, Globbed;
    var front := PlanShape(s.files, s.registry, names, extra, Current(s));
    var index, queue := IndexUploads(s.files), t.phase.queue;
    assert queue == front + index;
    assert queue[|queue| - 5..] == index && queue[..|queue| - 5] == front;
    FrontUploaded(front, s.files, s.registry, Current(s));
    assert Within(Current(s), ListingOf(s.files)) by { WithinListing(s, front); }
    assert FrontFits(t, front);
    assert QueueFits(t);
  }

  lemma WithinListing(s: State, front: seq<Upload>)
    requires FrontOf(front, s.files, s.registry, Current(s)) && Holds(s.registry, Current(s))
    requires forall name :: name in Current(s) ==> name in s.files
    ensures Within(Current(s), ListingOf(s.files))
  {
  }

  lemma PutKeeps(registry: Files, u: Upload, listing: Listing)
    requires Holds(registry, listing) && u.name !in listing
    ensures Holds(registry[u.name := u.file], listing)
  {
  }

  lemma PutKeepsHistory(registry: Files, history: seq<Listing>, u: Upload)
    requires HistoryHolds(registry, history) && u.name !in Last(history)
    ensures HistoryHolds(registry[u.name := u.file], history)
  {
    hide IsDeb;
    forall i | 0 <= i < |history|
      ensures Holds(registry[u.name := u.file], history[i]) && Within(history[i], Last(history))
    {
      assert u.name !in history[i];
    }
  }

  lemma NotListed(registry: Files, listing: Listing, name: string)
    requires Holds(registry, listing) && !IsDeb(name)
    ensures name !in listing
  {
  }

  /** A PUT of a file before the index. */
  lemma PutFront(s: State, t: State)
    requires Inv(s) && PutStep(s, t) && |s.phase.queue| > 5
    ensures Inv(t)
  {
    hide Holds, ListingOf, HistoryHolds, IndexUploads, JustIndexed;
    var queue := s.phase.queue;
    var front, rest, u := queue[..|queue| - 5], t.phase.queue, queue[0];
    assert front[0] == u && u in front;
    assert "Packages" in INDEX_FILES && "InRelease" in INDEX_FILES && "Release.gpg" in INDEX_FILES;
    PutKeeps(s.registry, u, Current(s));
    PutKeepsHistory(s.registry, s.history, u);
    assert rest[|rest| - 5..] == queue[|queue| - 5..];
    assert rest[..|rest| - 5] == front[1..];
    assert forall v :: v in front[1..] ==> v in front;
  }

  /** The PUT of Packages: the new list takes over. */
  lemma PutPackages(s: State, t: State)
    requires Inv(s) && PutStep(s, t) && |s.phase.queue| == 5
    ensures Inv(t)
  {
    hide Holds, ListingOf, HistoryHolds, PublishedListing, SignaturesKnown, Within;
    var queue, listing := s.phase.queue, ListingOf(s.files);
    assert queue[|queue| - 5..] == queue && queue[..|queue| - 5] == [];
    assert queue[0] == Upload("Packages", Packages(listing));
    IndexNamesAreNotDebs();
    assert "Packages" in INDEX_FILES;
    NotListed(s.registry, Current(s), "Packages");
    NotListed(s.registry, listing, "Packages");
    PutKeeps(s.registry, queue[0], listing);
    PutKeepsHistory(s.registry, s.history, queue[0]);
    HistoryGrows(t.registry, s.history, listing);
    ShownAfterPut(s.registry, listing);
    SignaturesStay(s.registry, s.history, "Packages", Packages(listing), listing);
    ListedInDirectory(s.files);
  }

  lemma ListedInDirectory(files: Files)
    ensures forall name :: name in ListingOf(files) ==> name in files
  {
  }

  lemma ShownAfterPut(registry: Files, listing: Listing)
    ensures PublishedListing(registry["Packages" := Packages(listing)]) == Ok(listing)
  {
  }

  lemma HistoryGrows(registry: Files, history: seq<Listing>, listing: Listing)
    requires HistoryHolds(registry, history) && Holds(registry, listing) && Within(Last(history), listing)
    ensures HistoryHolds(registry, history + [listing])
  {
    hide Holds;
    var now := history + [listing];
    forall i | 0 <= i < |now| ensures Holds(registry, now[i]) && Within(now[i], listing) {
      if i < |history| { assert Within(history[i], Last(history)); }
    }
  }

  lemma SignsMore(signature: File, history: seq<Listing>, listing: Listing)
    requires SignsHistory(signature, history)
    ensures SignsHistory(signature, history + [listing])
  {
    hide ReleaseOf;
    var i :| 0 <= i < |history| && ReleaseOf(Vouched(signature).value, history[i]);
    assert (history + [listing])[i] == history[i];
  }

  lemma SignaturesStay(registry: Files, history: seq<Listing>, name: string, file: File, listing: Listing)
    requires SignaturesKnown(registry, history) && name != "InRelease" && name != "Release.gpg"
    ensures SignaturesKnown(registry[name := file], history + [listing])
  {
    hide SignsHistory;
    if "InRelease" in registry { SignsMore(registry["InRelease"], history, listing); }
    if "Release.gpg" in registry { SignsMore(registry["Release.gpg"], history, listing); }
  }

  /** The PUTs after Packages: nothing that is listed changes, and the signatures sign the list now shown. */
  lemma PutIndex(s: State, t: State)
    requires Inv(s) && PutStep(s, t) && |s.phase.queue| < 5
    ensures Inv(t)
  {
    hide Holds, ListingOf, HistoryHolds, SignaturesKnown, Within, PublishedListing, IndexUploads, IsDeb;
    var queue, n := s.phase.queue, |s.phase.queue|;
    var index := IndexUploads(s.files);
    var u := queue[0];
    assert u == index[5 - n] && t.phase.queue == index[5 - (n - 1)..];
    NotPackages(s.files, 5 - n);
    IndexNamesAreNotDebs();
    NotListed(s.registry, Current(s), u.name);
    PutKeeps(s.registry, u, Current(s));
    PutKeepsHistory(s.registry, s.history, u);
    ShownStays(s.registry, u);
    SignatureComes(s.registry, s.history, s.files, 5 - n);
  }

  lemma ShownStays(registry: Files, u: Upload)
    requires u.name != "Packages"
    ensures PublishedListing(registry[u.name := u.file]) == PublishedListing(registry)
  {
  }

  lemma NotPackages(files: Files, i: nat)
    requires HasIndex(files) && 1 <= i < 5
    ensures IndexUploads(files)[i].name in INDEX_FILES && IndexUploads(files)[i].name != "Packages"
  {
    assert |"Packages"| == 8 && |"Packages.gz"| == 11 && |"Release"| == 7 && |"InRelease"| == 9 && |"Release.gpg"| == 11;
  }

  lemma SignatureComes(registry: Files, history: seq<Listing>, files: Files, i: nat)
    requires SignaturesKnown(registry, history) && JustSigned(files) && history != [] && Last(history) == ListingOf(files)
    requires 1 <= i < 5
    ensures var u := IndexUploads(files)[i]; SignaturesKnown(registry[u.name := u.file], history)
  {
    hide ListingOf;
    assert |"Packages"| == 8 && |"Packages.gz"| == 11 && |"Release"| == 7 && |"InRelease"| == 9 && |"Release.gpg"| == 11;
    assert "Packages.gz"[0] == 'P' && "Release.gpg"[0] == 'R';
    var last := |history| - 1;
    assert ReleaseOf(files["Release"], history[last]);
    assert SignsHistory(files["InRelease"], history) && SignsHistory(files["Release.gpg"], history);
  }

  /** Every step of the protocol keeps the invariant. */
  lemma StepInv(s: State, action: Action, t: State)
    requires Inv(s) && Step(s, action, t)
    ensures Inv(t)
  {
    hide Inv;
    match action {
      case Put =>
        if |s.phase.queue| > 5 { PutFront(s, t); }
        else if |s.phase.queue| == 5 { PutPackages(s, t); }
        else { PutIndex(s, t); }
      case Publish(names, extra) => PublishInv(s, names, extra, t);
      case _ => LocalInv(s, action, t);
    }
  }

  // ----- What holds over every run -----

  lemma {:induction false} RunInv(states: seq<State>, actions: seq<Action>, k: nat)
    requires Run(states, actions) && k < |states|
    ensures Inv(states[k])
  {
    if k == 0 {
      InitInv(states[0]);
    } else {
      RunInv(states, actions, k - 1);
      StepInv(states[k - 1], actions[k - 1], states[k - 1 + 1]);
    }
  }

  lemma {:induction false} HistoryKept(states: seq<State>, actions: seq<Action>, i: nat, k: nat)
    requires Run(states, actions) && i <= k < |states|
    ensures states[i].history <= states[k].history
    decreases k
  {
    if i >= k {
    } else {
      HistoryKept(states, actions, i, k - 1);
      assert Step(states[k - 1], actions[k - 1], states[k - 1 + 1]);
    }
  }

  lemma CurrentKept(states: seq<State>, actions: seq<Action>, i: nat, k: nat)
    requires Run(states, actions) && i <= k < |states|
    ensures Within(Current(states[i]), Current(states[k]))
  {
    RunInv(states, actions, k);
    HistoryKept(states, actions, i, k);
    var n := |states[i].history| - 1;
    if n >= 0 {
      assert states[i].history[n] == states[k].history[n];
      assert Within(states[k].history[n], Last(states[k].history));
    }
  }

  /** In every reachable state the published list can be read and every file it names is there with its checksum; later
      on the list only grows and no listed file ever has other bytes. */
  lemma ListedFilesStay(states: seq<State>, actions: seq<Action>, i: nat, k: nat, name: string)
    requires Run(states, actions) && i <= k < |states|
    requires PublishedListing(states[i].registry).Ok? && name in PublishedListing(states[i].registry).value
    ensures var before, now := PublishedListing(states[i].registry), PublishedListing(states[k].registry);
            && name in states[i].registry && Sha256(states[i].registry[name]) == before.value[name]
            && now.Ok? && name in now.value && now.value[name] == before.value[name]
            && name in states[k].registry && states[k].registry[name] == states[i].registry[name]
  {
    hide IsDeb, PublishedListing, Run;
    RunInv(states, actions, i);
    RunInv(states, actions, k);
    CurrentKept(states, actions, i, k);
  }

  lemma ListAlwaysReadable(states: seq<State>, actions: seq<Action>, k: nat)
    requires Run(states, actions) && k < |states|
    ensures PublishedListing(states[k].registry).Ok?
  {
    RunInv(states, actions, k);
  }

  /** What a client accepts: a package list whose checksum the signed Release file gives. */
  ghost predicate Accepts(signature: File, index: File, listing: Listing)
  {
    && Vouched(signature).Some? && Vouched(signature).value.Release?
    && var release := Vouched(signature).value;
       || (index == Packages(listing) && Sha256(index) == release.packages)
       || (index == Gzip(Packages(listing)) && Sha256(index) == release.gzip)
  }

  lemma AcceptedIsWhole(signature: File, index: File, listing: Listing, history: seq<Listing>) returns (n: nat)
    requires SignsHistory(signature, history) && Accepts(signature, index, listing)
    ensures n < |history| && history[n] == listing
  {
    n :| 0 <= n < |history| && ReleaseOf(Vouched(signature).value, history[n]);
  }

  /** A client that fetches a signature at one time and a package list at another, in either order, accepts only a whole
      list that some publish uploaded; at any later time every file on it can be fetched with its listed checksum, and the
      list then shown still contains it. */
  lemma ClientIsSafe(states: seq<State>, actions: seq<Action>, i: nat, j: nat, k: nat, name: string, index: string, listing: Listing)
    returns (n: nat)
    requires Run(states, actions) && i <= k < |states| && j <= k
    requires name in {"InRelease", "Release.gpg"} && name in states[i].registry && index in states[j].registry
    requires Accepts(states[i].registry[name], states[j].registry[index], listing)
    ensures n < |states[i].history| && states[i].history[n] == listing
    ensures Holds(states[k].registry, listing) && Within(listing, Current(states[k]))
    ensures PublishedListing(states[k].registry) == Ok(Current(states[k]))
  {
    hide Holds, Within, Accepts, SignsHistory, Step;
    RunInv(states, actions, i);
    RunInv(states, actions, k);
    n := AcceptedIsWhole(states[i].registry[name], states[j].registry[index], listing, states[i].history);
    HistoryKept(states, actions, i, k);
    assert states[k].history[n] == listing;
  }

  // ----- Publishing again after a stop -----

  lemma PutTwice(registry: Files, front: seq<Upload>, uploads: seq<Upload>)
    requires forall u :: u in front ==> Touches(uploads, u.name)
    ensures PutAll(PutAll(registry, front), uploads) == PutAll(registry, uploads)
  {
    var middle := PutAll(registry, front);
    forall name | !Touches(uploads, name) ensures SameAt(middle, registry, name) {
      assert forall u :: u in front ==> u.name != name;
      PutAllElsewhere(registry, front, name);
    }
    PutAllAgree(middle, registry, uploads);
  }

  lemma PrefixPutTwice(registry: Files, uploads: seq<Upload>, n: nat)
    requires n <= |uploads|
    ensures PutAll(PutAll(registry, uploads[..n]), uploads) == PutAll(registry, uploads)
  {
    forall u | u in uploads[..n] ensures Touches(uploads, u.name) {
      assert u in uploads;
    }
    PutTwice(registry, uploads[..n], uploads);
  }

  lemma {:induction false} NothingNew(files: Files, names: seq<string>)
    requires forall name :: name in names ==> name in files && IsDeb(name)
    ensures NewFiles(files, names, ListingOf(files)) == Ok([])
  {
    hide IsDeb;
    if names == [] {
    } else {
      var n := |names| - 1;
      assert names[n] in names && forall name :: name in names[..n] ==> name in names;
      NothingNew(files, names[..n]);
    }
  }

  /** What went up before the index is still there while the index goes up. */
  lemma FrontThere(front: seq<Upload>, files: Files, registry: Files, already: Listing, n: nat, u: Upload)
    requires FrontOf(front, files, registry, already) && HasIndex(files) && n <= 5 && u in front && IsDeb(u.name)
    ensures var stopped := PutAll(PutAll(registry, front), IndexUploads(files)[..n]);
            u.name in stopped && stopped[u.name] == u.file
  {
    hide IsDeb;
    IndexNamesAreNotDebs();
    PutAllHas(registry, front, u.name, u.file);
    var uploads := IndexUploads(files)[..n];
    assert forall v :: v in uploads ==> v.name in INDEX_FILES;
    assert !Touches(uploads, u.name);
    PutAllElsewhere(PutAll(registry, front), uploads, u.name);
  }

  lemma SkippingWhatIsThere(registry: Files, extra: seq<Upload>, added: seq<Upload>, index: seq<Upload>)
    requires forall u :: u in added ==> u.name in registry && registry[u.name] == u.file && !Touches(extra, u.name)
    ensures PutAll(registry, extra + [] + index) == PutAll(registry, extra + added + index)
  {
    var now := PutAll(registry, extra);
    forall u | u in added ensures u.name in now && now[u.name] == u.file {
      PutAllElsewhere(registry, extra, u.name);
    }
    PutAllAgain(now, added);
    assert extra + [] == extra && extra + added + index == (extra + added) + index;
    PutAllAppend(registry, extra, index);
    PutAllAppend(registry, extra, added);
    PutAllAppend(registry, extra + added, index);
  }

  /** A publish that stopped anywhere can be run again on the same directory: it is not refused, and it ends with the
      registry that the publish would have left had it not stopped. */
  lemma PublishAgainCompletes(files: Files, registry: Files, names: seq<string>, extra: seq<Upload>, puts: nat)
    requires Globbed(names, files) && JustSigned(files) && ExtraNames(extra)
    requires PublishedListing(registry).Ok? && Holds(registry, PublishedListing(registry).value)
    requires var plan := Plan(files, registry, names, extra); plan.Ok? && puts <= |plan.value|
    ensures var plan := Plan(files, registry, names, extra).value;
            var stopped := PutAll(registry, plan[..puts]);
            var again := Plan(files, stopped, names, extra);
            again.Ok? && PutAll(stopped, again.value) == PutAll(registry, plan)
  {
    hide PutAll, PublishedListing, FrontOf, NewFiles, ListingOf, JustSigned, IsDeb, ExtraNames;
    var already := PublishedListing(registry).value;
    var front := PlanShape(files, registry, names, extra, already);
    var index, plan := IndexUploads(files), front + IndexUploads(files);
    var stopped := PutAll(registry, plan[..puts]);
    PrefixPutTwice(registry, plan, puts);
    if puts <= |front| {
      assert plan[..puts] == front[..puts];
      FrontNames(front, files, registry, already);
      ListingStays(front[..puts], registry);
      assert Plan(files, stopped, names, extra) == Plan(files, registry, names, extra);
    } else {
      var n := puts - |front|;
      assert plan[..puts] == front + index[..n];
      PutAllAppend(registry, front, index[..n]);
      ListingShown(files, PutAll(registry, front), n);
      NothingNew(files, names);
      PlanIs(files, stopped, names, extra, ListingOf(files), []);
      AddedThere(files, registry, names, extra, already, n);
      SkippingWhatIsThere(stopped, extra, NewFiles(files, names, already).value, index);
    }
  }

  lemma PlanIs(files: Files, registry: Files, names: seq<string>, extra: seq<Upload>, already: Listing, added: seq<Upload>)
    requires HasIndex(files) && (forall name :: name in names ==> name in files)
    requires PublishedListing(registry) == Ok(already) && NewFiles(files, names, already) == Ok(added)
    ensures Plan(files, registry, names, extra) == Ok(extra + added + IndexUploads(files))
  {
    hide PublishedListing, NewFiles;
    FirstMissingNone(files, INDEX_FILES);
  }

  lemma AddedThere(files: Files, registry: Files, names: seq<string>, extra: seq<Upload>, already: Listing, n: nat)
    requires Globbed(names, files) && HasIndex(files) && ExtraNames(extra) && n <= 5
    requires NewFiles(files, names, already).Ok?
    requires FrontOf(extra + NewFiles(files, names, already).value, files, registry, already)
    ensures var added := NewFiles(files, names, already).value;
            var stopped := PutAll(PutAll(registry, extra + added), IndexUploads(files)[..n]);
            forall u :: u in added ==> u.name in stopped && stopped[u.name] == u.file && !Touches(extra, u.name)
  {
    hide IsDeb, PutAll, FrontOf, IndexUploads;
    var added := NewFiles(files, names, already).value;
    var stopped := PutAll(PutAll(registry, extra + added), IndexUploads(files)[..n]);
    NewFilesAre(files, names, already);
    forall u | u in added ensures u.name in stopped && stopped[u.name] == u.file && !Touches(extra, u.name) {
      assert u.name in names;
      assert u in extra + added && IsDeb(u.name);
      FrontThere(extra + added, files, registry, already, n, u);
    }
  }

  lemma IndexThere(files: Files, registry: Files, i: nat)
    requires HasIndex(files) && i < 5
    ensures var u, now := IndexUploads(files)[i], PutAll(registry, IndexUploads(files));
            u.name in now && now[u.name] == u.file
  {
    assert |"Packages"| == 8 && |"Packages.gz"| == 11 && |"Release"| == 7 && |"InRelease"| == 9 && |"Release.gpg"| == 11;
    assert "Packages.gz"[0] == 'P' && "Release.gpg"[0] == 'R';
    var uploads := IndexUploads(files);
    assert uploads[i] in uploads;
    PutAllHas(registry, uploads, uploads[i].name, uploads[i].file);
  }

  /** After a finished publish a client accepts the new list, plain or compressed, under either signature, and every file
      on it is there. */
  lemma FinishedPublishAccepted(files: Files, registry: Files, names: seq<string>, extra: seq<Upload>)
    requires Globbed(names, files) && JustSigned(files) && ExtraNames(extra)
    requires PublishedListing(registry).Ok? && Holds(registry, PublishedListing(registry).value)
    requires Plan(files, registry, names, extra).Ok?
    ensures var now := PutAll(registry, Plan(files, registry, names, extra).value);
            && Holds(now, ListingOf(files))
            && forall signature, index :: signature in {"InRelease", "Release.gpg"} && index in {"Packages", "Packages.gz"} ==>
                 signature in now && index in now && Accepts(now[signature], now[index], ListingOf(files))
  {
    hide Plan, PublishedListing, FrontOf, ListingOf, IsDeb, PutAll, Holds;
    var already := PublishedListing(registry).value;
    var front := PlanShape(files, registry, names, extra, already);
    var index, middle := IndexUploads(files), PutAll(registry, front);
    PutAllAppend(registry, front, index);
    FrontUploaded(front, files, registry, already);
    assert index[..5] == index;
    IndexUploaded(files, middle, 5, ListingOf(files));
    IndexThere(files, middle, 0);
    IndexThere(files, middle, 1);
    IndexThere(files, middle, 3);
    IndexThere(files, middle, 4);
  }

  // ----- Runs that get there -----

  lemma Longer(states: seq<State>, actions: seq<Action>, action: Action, t: State)
    requires Run(states, actions) && Step(states[|states| - 1], action, t)
    ensures Run(states + [t], actions + [action])
  {
    hide Step, Init;
    var longer, more := states + [t], actions + [action];
    forall i | 0 <= i < |more| ensures Step(longer[i], more[i], longer[i + 1]) {
      if i < |actions| {
        assert longer[i] == states[i] && longer[i + 1] == states[i + 1];
      }
    }
  }

  lemma PutIsStep(s: State, t: State)
    requires PutStep(s, t)
    ensures Step(s, Put, t)
  {
  }

  /** A run in the middle of a publish can be continued to its end. */
  lemma {:induction false} PublishCanFinish(states: seq<State>, actions: seq<Action>)
    returns (longer: seq<State>, more: seq<Action>)
    requires Run(states, actions) && states[|states| - 1].phase.Publishing?
    ensures Run(longer, more) && states <= longer && actions <= more
    ensures var s, t := states[|states| - 1], longer[|longer| - 1];
            t.phase == Publishing([]) && t.registry == PutAll(s.registry, s.phase.queue) && t.files == s.files
    decreases |states[|states| - 1].phase.queue|
  {
    hide Step, Init;
    var s := states[|states| - 1];
    var queue := s.phase.queue;
    if queue == [] {
      longer, more := states, actions;
    } else {
      var u := queue[0];
      var history := if u.name == "Packages" && u.file.Packages? then s.history + [u.file.listed] else s.history;
      var t := s.(registry := s.registry[u.name := u.file], phase := Publishing(queue[1..]), history := history);
      PutIsStep(s, t);
      Longer(states, actions, Put, t);
      longer, more := PublishCanFinish(states + [t], actions + [Put]);
    }
  }

  /** The directory that holds one package, indexed and signed. */
  function OnePackage(name: string, file: File): Files { SignedFiles(Reindexed(map[name := file], "")) }

  /** A run from nothing to a publish of one package: pull, build, index, sign. */
  lemma RunToPublish(name: string, file: File) returns (states: seq<State>, actions: seq<Action>)
    requires IsDeb(name) && ControlOf(file).Some?
    ensures Run(states, actions)
    ensures var s := states[|states| - 1];
            && s.registry == map[] && s.files == OnePackage(name, file) && s.phase.Publishing?
            && Plan(s.files, map[], [name], []) == Ok(s.phase.queue) && JustSigned(s.files) && Globbed([name], s.files)
            && ListingOf(s.files) == map[name := Sha256(file)]
  {
    hide IsDeb, ListingOf, Plan, Reindexed, SignedFiles, Run, JustSigned, Globbed;
    var none: Files := map[];
    var start := map[name := file];
    var indexed := Reindexed(start, "");
    OneFileIndexed(start, name, file, OnePackage(name, file));
    FirstSteps(name, file);
    var s := State(none, start, true, Working, []);
    states, actions := [State(none, none, false, Working, []), State(none, none, true, Working, []), s], [Pull, Write(name, file)];
    PullAndWrite(name, file, states, actions);
    var t := s.(files := indexed, phase := Indexed);
    Longer(states, actions, Index([name], ""), t);
    states, actions := states + [t], actions + [Index([name], "")];
    var u := t.(files := OnePackage(name, file), phase := Signed);
    Longer(states, actions, Sign, u);
    states, actions := states + [u], actions + [Sign];
    OnePlan(name, file);
    var v := u.(phase := Publishing(Plan(u.files, none, [name], []).value));
    Longer(states, actions, Publish([name], []), v);
    states, actions := states + [v], actions + [Publish([name], [])];
  }

  lemma FirstSteps(name: string, file: File)
    requires IsDeb(name) && ControlOf(file).Some?
    ensures Globbed([name], map[name := file]) && IndexError(map[name := file], [name]) == None
    ensures "Release" in Reindexed(map[name := file], "")
  {
    hide IsDeb, Reindexed;
    IndexSucceedsIff(map[name := file], [name]);
    ReindexedIsIndexed(map[name := file], "");
  }

  lemma PullAndWrite(name: string, file: File, states: seq<State>, actions: seq<Action>)
    requires states == [State(map[], map[], false, Working, []), State(map[], map[], true, Working, []),
                        State(map[], map[name := file], true, Working, [])]
    requires actions == [Pull, Write(name, file)]
    ensures Run(states, actions)
  {
    var none: Files := map[];
    assert Pulled(none, none, map[]) == none;
    assert PullStep(states[0], states[1]);
    assert none[name := file] == map[name := file];
    assert Step(states[0], actions[0], states[0 + 1]) && Step(states[1], actions[1], states[1 + 1]);
  }

  lemma OnePlan(name: string, file: File)
    requires IsDeb(name)
    ensures var files := OnePackage(name, file);
            (forall n :: n in [name] ==> n in files) && Plan(files, map[], [name], []).Ok?
  {
    hide IsDeb, Reindexed, ListingOf;
    var files := OnePackage(name, file);
    OneFileIndexed(map[name := file], name, file, files);
    OneNewFile(files, name, map[]);
    FirstMissingNone(files, INDEX_FILES);
    PlanIs(files, map[], [name], [], map[], [Upload(name, files[name])]);
  }

  /** Runs do publish: for every package there is one that ends with the package listed and there, and a client accepts
      the list. */
  lemma SomeRunPublishes(name: string, file: File) returns (states: seq<State>, actions: seq<Action>)
    requires IsDeb(name) && ControlOf(file).Some?
    ensures Run(states, actions)
    ensures var end, listing := states[|states| - 1].registry, map[name := Sha256(file)];
            && PublishedListing(end) == Ok(listing) && name in end && end[name] == file
            && "InRelease" in end && "Packages" in end && Accepts(end["InRelease"], end["Packages"], listing)
  {
    hide IsDeb, ListingOf, Plan, Step, Init, JustSigned, Globbed, Accepts, PutAll, PublishedListing, OnePackage;
    var first, before := RunToPublish(name, file);
    var s := first[|first| - 1];
    states, actions := PublishCanFinish(first, before);
    NothingPublished();
    FinishedPublishAccepted(s.files, map[], [name], []);
    ListedSetKeptIff(s.files, map[], [name], []);
    var end := states[|states| - 1].registry;
    assert "InRelease" in {"InRelease", "Release.gpg"} && "Packages" in {"Packages", "Packages.gz"};
    assert "InRelease" in end && "Packages" in end && Accepts(end["InRelease"], end["Packages"], ListingOf(s.files));
    HeldFile(end, name, file);
  }

  lemma NothingPublished()
    ensures PublishedListing(map[]) == Ok(map[]) && Holds(map[], map[]) && ExtraNames([])
  {
  }

  lemma HeldFile(registry: Files, name: string, file: File)
    requires Holds(registry, map[name := Sha256(file)])
    ensures name in registry && registry[name] == file
  {
    hide IsDeb;
    assert name in map[name := Sha256(file)];
  }
}
