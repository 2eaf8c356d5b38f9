// The apt repository tool (apt_repo.py): one directory, one remote registry, and the steps that move files between them.
// A registry is a map of file names; PUT overwrites. SHA-256 is taken as injective: a digest is the file it was taken of.
module AptRepository {
  import opened Prelude

  datatype Control = Control(package: string, version: string)

  /** What a file holds. For plain data, `control` is what `dpkg-deb` reads from it, None when that fails or a required
      field is missing. An index file holds what its text says. */
  datatype File =
    | Data(bytes: string, control: Option<Control>)
    | Packages(listed: Listing)
    | Gzip(file: File)
    | Release(packages: Digest, gzip: Digest, date: string)
    | ClearSigned(release: File)
    | DetachedSignature(release: File)

  datatype Digest = Sha256(file: File)

  /** File name to checksum, as the stanzas of an index give them. */
  type Listing = map<string, Digest>
  type Files = map<string, File>

  datatype Error =
    | NoPackageFiles
    | UnreadablePackage(name: string)
    | RepeatedVersion(control: Control)
    | Missing(name: string)
    | SigningFailed
    | NotFound(name: string)
    | NotAnIndex
    | WrongChecksum(name: string)
    | PublishedWithOtherBytes(name: string)
    | Stopped

  predicate IsDeb(name: string) { |name| >= 4 && name[|name| - 4..] == ".deb" }

  const INDEX_FILES: seq<string> := ["Packages", "Packages.gz", "Release", "InRelease", "Release.gpg"]

  /** The result of `sorted(root.glob("*.deb"))`: the .deb names of the directory, each once. */
  ghost predicate Globbed(names: seq<string>, files: Files)
  {
    && (forall name :: name in names <==> name in files && IsDeb(name))
    && (forall i, j :: 0 <= i < j < |names| ==> names[i] != names[j])
  }

  function ListingOf(files: Files): (listing: Listing)
    ensures forall name :: name in listing <==> name in files && IsDeb(name)
    ensures forall name :: name in listing ==> listing[name] == Sha256(files[name])
  {
    map name | name in files && IsDeb(name) :: Sha256(files[name])
  }

  function ControlOf(file: File): Option<Control> { if file.Data? then file.control else None }

  // ----- index -----

  /** The control of every named file, or the first that cannot be read. */
  function ReadAll(files: Files, names: seq<string>): Result<seq<Control>, Error>
    requires forall name :: name in names ==> name in files
  {
    if names == [] then Ok([])
    else
      var n := |names| - 1;
      match ReadAll(files, names[..n])
      case Err(e) => Err(e)
      case Ok(controls) =>
        match ControlOf(files[names[n]])
        case None => Err(UnreadablePackage(names[n]))
        case Some(c) => Ok(controls + [c])
  }

  /** The first control that an earlier one equals. */
  function FirstRepeat(controls: seq<Control>): Option<Control>
  {
    if controls == [] then None
    else
      var n := |controls| - 1;
      match FirstRepeat(controls[..n])
      case Some(c) => Some(c)
      case None => if controls[n] in controls[..n] then Some(controls[n]) else None
  }

  /** The directory after `index`: new index files, no signatures. */
  function Reindexed(files: Files, date: string): (now: Files)
  {
    var packages := Packages(ListingOf(files));
    var written := files["Packages" := packages]["Packages.gz" := Gzip(packages)]
      ["Release" := Release(Sha256(packages), Sha256(Gzip(packages)), date)];
    written - {"InRelease", "Release.gpg"}
  }

  function IndexError(files: Files, names: seq<string>): Option<Error>
    requires forall name :: name in names ==> name in files
  {
    if names == [] then Some(NoPackageFiles)
    else
      match ReadAll(files, names)
      case Err(e) => Some(e)
      case Ok(controls) =>
        match FirstRepeat(controls)
        case Some(c) => Some(RepeatedVersion(c))
        case None => None
  }

  lemma {:induction false} ReadAllOk(files: Files, names: seq<string>)
    requires forall name :: name in names ==> name in files
    ensures ReadAll(files, names).Ok? <==> forall name :: name in names ==> ControlOf(files[name]).Some?
    ensures var r := ReadAll(files, names);
            r.Ok? ==> |r.value| == |names| && forall i :: 0 <= i < |names| ==> Some(r.value[i]) == ControlOf(files[names[i]])
  {
    if names == [] {
    } else {
      var n := |names| - 1;
      assert names == names[..n] + [names[n]];
      ReadAllOk(files, names[..n]);
    }
  }

  lemma {:induction false} FirstRepeatNone(controls: seq<Control>)
    ensures FirstRepeat(controls) == None <==> forall i, j :: 0 <= i < j < |controls| ==> controls[i] != controls[j]
  {
    if controls == [] {
    } else {
      var n := |controls| - 1;
      FirstRepeatNone(controls[..n]);
      assert forall i :: 0 <= i < n ==> controls[..n][i] == controls[i];
    }
  }

  /** `index` succeeds exactly when there are .deb files, all can be read and no package version appears twice. */
  lemma IndexSucceedsIff(files: Files, names: seq<string>)
    requires forall name :: name in names ==> name in files
    ensures IndexError(files, names) == None <==>
            && names != []
            && (forall name :: name in names ==> ControlOf(files[name]).Some?)
            && forall i, j :: 0 <= i < j < |names| ==> ControlOf(files[names[i]]) != ControlOf(files[names[j]])
  {
    ReadAllOk(files, names);
    var r := ReadAll(files, names);
    if r.Ok? {
      FirstRepeatNone(r.value);
      var controls := r.value;
      assert forall i :: 0 <= i < |names| ==> Some(controls[i]) == ControlOf(files[names[i]]);
    }
  }

  // ----- publish -----

  /** What `published_packages` reads from a registry. */
  function PublishedListing(files: Files): Result<Listing, Error>
  {
    if "Packages" !in files then Ok(map[])
    else if files["Packages"].Packages? then Ok(files["Packages"].listed)
    else Err(NotAnIndex)
  }

  function FirstMissing(files: Files, names: seq<string>): Option<string>
  {
    if names == [] then None
    else if names[0] !in files then Some(names[0])
    else FirstMissing(files, names[1..])
  }

  datatype Upload = Upload(name: string, file: File)

  /** The new .deb files, or the first one whose name is published with other bytes. */
  function NewFiles(files: Files, names: seq<string>, already: Listing): Result<seq<Upload>, Error>
    requires forall name :: name in names ==> name in files
  {
    if names == [] then Ok([])
    else
      var n := |names| - 1;
      var name := names[n];
      match NewFiles(files, names[..n], already)
      case Err(e) => Err(e)
      case Ok(uploads) =>
        if name !in already then Ok(uploads + [Upload(name, files[name])])
        else if already[name] == Sha256(files[name]) then Ok(uploads)
        else Err(PublishedWithOtherBytes(name))
  }

  predicate HasIndex(files: Files) { forall name :: name in INDEX_FILES ==> name in files }

  /** The index files in upload order: the signed index last. */
  function IndexUploads(files: Files): (uploads: seq<Upload>)
    requires HasIndex(files)
    ensures |uploads| == 5
  {
    [Upload("Packages", files["Packages"]), Upload("Packages.gz", files["Packages.gz"]),
     Upload("Release", files["Release"]), Upload("Release.gpg", files["Release.gpg"]),
     Upload("InRelease", files["InRelease"])]
  }

  /** Everything `publish` will PUT, in order, or the error it stops with before any PUT. */
  function Plan(files: Files, registry: Files, names: seq<string>, extra: seq<Upload>): Result<seq<Upload>, Error>
    requires forall name :: name in names ==> name in files
  {
    match FirstMissing(files, INDEX_FILES)
    case Some(name) => Err(Missing(name))
    case None =>
      FirstMissingNone(files, INDEX_FILES);
      match PublishedListing(registry)
      case Err(e) => Err(e)
      case Ok(already) =>
        match NewFiles(files, names, already)
        case Err(e) => Err(e)
        case Ok(added) => Ok(extra + added + IndexUploads(files))
  }

  lemma {:induction false} FirstMissingNone(files: Files, names: seq<string>)
    ensures FirstMissing(files, names) == None <==> forall name :: name in names ==> name in files
  {
    if names == [] {
    } else {
      FirstMissingNone(files, names[1..]);
      assert names == [names[0]] + names[1..];
    }
  }

  /** The registry after some PUTs. */
  function PutAll(registry: Files, uploads: seq<Upload>): Files
    decreases |uploads|
  {
    if uploads == [] then registry else PutAll(registry[uploads[0].name := uploads[0].file], uploads[1..])
  }

  lemma {:induction false} PutAllAppend(registry: Files, a: seq<Upload>, b: seq<Upload>)
    ensures PutAll(registry, a + b) == PutAll(PutAll(registry, a), b)
    decreases |a|
  {
    if a == [] {
      assert a + b == b;
    } else {
      assert (a + b)[1..] == a[1..] + b;
      PutAllAppend(registry[a[0].name := a[0].file], a[1..], b);
    }
  }

  // ----- The steps on a directory and a registry -----

  class Registry {
    var files: Files

    /** `_request` with GET. */
    method Get(name: string) returns (r: Result<File, Error>)
      ensures r == if name in files then Ok(files[name]) else Err(NotFound(name))
    {
      if name in files { return Ok(files[name]); }
      return Err(NotFound(name));
    }

    /** `_request` with PUT. */
    method Put(upload: Upload)
      modifies this
      ensures files == old(files)[upload.name := upload.file]
    {
      files := files[upload.name := upload.file];
    }

    /** The upload loop of `cmd_publish`, stopped after `puts` uploads. */
    method PutEach(queue: seq<Upload>, puts: nat) returns (error: Option<Error>)
      modifies this
      ensures error == if |queue| <= puts then None else Some(Stopped)
      ensures files == PutAll(old(files), queue[..if puts < |queue| then puts else |queue|])
    {
      for i := 0 to |queue|
        invariant i <= puts && files == PutAll(old(files), queue[..i])
      {
        if i == puts { return Some(Stopped); }
        Put(queue[i]);
        assert queue[..i + 1] == queue[..i] + [queue[i]];
        PutAllAppend(old(files), queue[..i], [queue[i]]);
      }
      error := None;
    }

    /** `published_packages`. */
    method Published() returns (r: Result<Listing, Error>)
      ensures r == PublishedListing(files)
    {
      var got := Get("Packages");
      match got {
        case Err(_) => r := Ok(map[]);
        case Ok(file) => r := if file.Packages? then Ok(file.listed) else Err(NotAnIndex);
      }
    }
  }

  class Directory {
    var files: Files

    /** The first loop of `cmd_index`: every file is read. */
    method ReadPackages(names: seq<string>) returns (r: Result<seq<Control>, Error>)
      requires forall name :: name in names ==> name in files
      ensures r == ReadAll(files, names)
    {
      hide ControlOf;
      var controls: seq<Control> := [];
      for i := 0 to |names|
        invariant ReadAll(files, names[..i]) == Ok(controls)
      {
        var name := names[i];
        assert names[..i + 1][..i] == names[..i];
        match ControlOf(files[name]) {
          case None =>
            ReadFails(files, names, i, UnreadablePackage(name));
            return Err(UnreadablePackage(name));
          case Some(c) => controls := controls + [c];
        }
      }
      assert names[..|names|] == names;
      r := Ok(controls);
    }

    /** The names and digests of the stanzas. */
    method ListPackages(names: seq<string>) returns (listing: Listing)
      requires Globbed(names, files)
      ensures listing == ListingOf(files)
    {
      hide IsDeb;
      listing := map[];
      for i := 0 to |names|
        invariant forall name :: name in listing <==> name in names[..i]
        invariant forall name :: name in listing ==> name in files && listing[name] == Sha256(files[name])
      {
        assert names[..i + 1] == names[..i] + [names[i]];
        listing := listing[names[i] := Sha256(files[names[i]])];
      }
      assert names[..|names|] == names;
      assert listing == ListingOf(files);
    }

    /** The second loop of `cmd_index`: a package version that appears twice. */
    method FindRepeat(controls: seq<Control>) returns (repeated: Option<Control>)
      ensures repeated == FirstRepeat(controls)
    {
      var seen: set<Control> := {};
      for i := 0 to |controls|
        invariant FirstRepeat(controls[..i]) == None
        invariant forall c :: c in seen <==> c in controls[..i]
      {
        assert controls[..i + 1][..i] == controls[..i] && controls[..i + 1] == controls[..i] + [controls[i]];
        if controls[i] in seen {
          RepeatStays(controls, i + 1);
          return Some(controls[i]);
        }
        seen := seen + {controls[i]};
      }
      assert controls[..|controls|] == controls;
      repeated := None;
    }

    /** `cmd_index`. An error leaves the directory as it was. */
    method Index(names: seq<string>, date: string) returns (error: Option<Error>)
      requires Globbed(names, files)
      modifies this
      ensures error == IndexError(old(files), names)
      ensures files == if error == None then Reindexed(old(files), date) else old(files)
    {
      hide ReadAll, FirstRepeat, ListingOf;
      if names == [] { return Some(NoPackageFiles); }
      var controls := ReadPackages(names);
      if controls.Err? { return Some(controls.error); }
      var repeated := FindRepeat(controls.value);
      if repeated.Some? { return Some(RepeatedVersion(repeated.value)); }
      var listing := ListPackages(names);
      var packages := Packages(listing);
      files := files["Packages" := packages];
      files := files["Packages.gz" := Gzip(packages)];
      files := files["Release" := Release(Sha256(packages), Sha256(Gzip(packages)), date)];
      files := files - {"InRelease", "Release.gpg"};
      error := None;
    }

    /** `cmd_sign`; `signatures` is how many of the two gpg calls succeed. */
    method Sign(signatures: nat) returns (error: Option<Error>)
      modifies this
      ensures error == if "Release" !in old(files) then Some(Missing("Release"))
                       else if signatures < 2 then Some(SigningFailed) else None
      ensures error == None ==> files == SignedFiles(old(files))
      ensures error != None && (signatures == 0 || "Release" !in old(files)) ==> files == old(files)
      ensures error != None && signatures == 1 && "Release" in old(files) ==>
                files == old(files)["InRelease" := ClearSigned(old(files)["Release"])]
    {
      if "Release" !in files { return Some(Missing("Release")); }
      var release := files["Release"];
      if signatures == 0 { return Some(SigningFailed); }
      files := files["InRelease" := ClearSigned(release)];
      if signatures == 1 { return Some(SigningFailed); }
      files := files["Release.gpg" := DetachedSignature(release)];
      error := None;
    }

    /** `cmd_pull`. What was fetched before an error stays; files the directory has are never replaced. */
    method Pull(registry: Registry) returns (error: Option<Error>)
      modifies this
      ensures registry.files == old(registry.files)
      ensures var published := PublishedListing(registry.files);
              && (published.Err? ==> error == Some(published.error) && files == old(files))
              && (published.Ok? ==>
                  && (error == None <==> CanPull(old(files), registry.files, published.value))
                  && (error == None ==> files == Pulled(old(files), registry.files, published.value))
                  && PartlyPulled(old(files), registry.files, published.value, files))
    {
      var published := registry.Published();
      if published.Err? { return Some(published.error); }
      var listed := published.value;
      var todo := listed.Keys;
      while todo != {}
        invariant todo <= listed.Keys && registry.files == old(registry.files)
        invariant PartlyPulled(old(files), registry.files, listed, files)
        invariant forall name :: name in listed && name !in todo ==> name in files
        invariant forall name :: name in todo && name !in old(files) ==> name !in files
        decreases |todo|
      {
        var name :| name in todo;
        ghost var before := files;
        if name !in files {
          var got := registry.Get(name);
          if got.Err? { return Some(got.error); }
          if Sha256(got.value) != listed[name] { return Some(WrongChecksum(name)); }
          files := files[name := got.value];
        }
        todo := todo - {name};
      }
      PulledWhole(old(files), registry.files, listed, files);
      error := None;
    }

    /** `cmd_publish`; the publisher stops (dies, or a PUT fails) after `puts` files have been uploaded. */
    method Publish(registry: Registry, names: seq<string>, extra: seq<Upload>, puts: nat) returns (error: Option<Error>)
      requires Globbed(names, files)
      modifies registry
      ensures files == old(files)
      ensures var plan := Plan(old(files), old(registry.files), names, extra);
              && (plan.Err? ==> error == Some(plan.error) && registry.files == old(registry.files))
              && (plan.Ok? ==>
                  && error == (if |plan.value| <= puts then None else Some(Stopped))
                  && registry.files == PutAll(old(registry.files), plan.value[..if puts < |plan.value| then puts else |plan.value|]))
    {
      for i := 0 to |INDEX_FILES|
        invariant files == old(files) && registry.files == old(registry.files)
        invariant FirstMissing(files, INDEX_FILES) == FirstMissing(files, INDEX_FILES[i..])
      {
        if INDEX_FILES[i] !in files { return Some(Missing(INDEX_FILES[i])); }
      }
      FirstMissingNone(files, INDEX_FILES);
      var published := registry.Published();
      if published.Err? { return Some(published.error); }
      var already := published.value;
      var uploads: seq<Upload> := [];
      for i := 0 to |names|
        invariant files == old(files) && registry.files == old(registry.files)
        invariant NewFiles(files, names[..i], already) == Ok(uploads)
      {
        var name := names[i];
        assert names[..i + 1][..i] == names[..i];
        if name in already && already[name] == Sha256(files[name]) { continue; }
        if name in already {
          NewFilesFail(files, names, already, i, PublishedWithOtherBytes(name));
          return Some(PublishedWithOtherBytes(name));
        }
        uploads := uploads + [Upload(name, files[name])];
      }
      assert names[..|names|] == names;
      var queue := extra + uploads + IndexUploads(files);
      error := registry.PutEach(queue, puts);
    }
  }

  lemma {:induction false} ReadFails(files: Files, names: seq<string>, i: nat, e: Error)
    requires i < |names| && forall name :: name in names ==> name in files
    requires ReadAll(files, names[..i + 1]) == Err(e)
    ensures ReadAll(files, names) == Err(e)
    decreases |names|
  {
    if i + 1 < |names| {
      assert names[..|names| - 1][..i + 1] == names[..i + 1];
      ReadFails(files, names[..|names| - 1], i, e);
    } else {
      assert names[..i + 1] == names;
    }
  }

  lemma {:induction false} RepeatStays(controls: seq<Control>, n: nat)
    requires n <= |controls| && FirstRepeat(controls[..n]).Some?
    ensures FirstRepeat(controls) == FirstRepeat(controls[..n])
    decreases |controls|
  {
    if n < |controls| {
      assert controls[..|controls| - 1][..n] == controls[..n];
      RepeatStays(controls[..|controls| - 1], n);
    } else {
      assert controls[..n] == controls;
    }
  }

  lemma {:induction false} NewFilesFail(files: Files, names: seq<string>, already: Listing, i: nat, e: Error)
    requires i < |names| && forall name :: name in names ==> name in files
    requires NewFiles(files, names[..i + 1], already) == Err(e)
    ensures NewFiles(files, names, already) == Err(e)
    decreases |names|
  {
    if i + 1 < |names| {
      assert names[..|names| - 1][..i + 1] == names[..i + 1];
      NewFilesFail(files, names[..|names| - 1], already, i, e);
    } else {
      assert names[..i + 1] == names;
    }
  }

  /** The directory after `sign`. */
  function SignedFiles(files: Files): Files
    requires "Release" in files
  {
    files["InRelease" := ClearSigned(files["Release"])]["Release.gpg" := DetachedSignature(files["Release"])]
  }

  /** Every listed file the directory lacks can be fetched with its published checksum. */
  ghost predicate CanPull(files: Files, registry: Files, listed: Listing)
  {
    forall name :: name in listed && name !in files ==> name in registry && Sha256(registry[name]) == listed[name]
  }

  /** The directory after a whole pull. */
  function Pulled(files: Files, registry: Files, listed: Listing): Files
    requires CanPull(files, registry, listed)
  {
    map name | name in files.Keys + listed.Keys :: if name in files then files[name] else registry[name]
  }

  ghost predicate PartlyPulled(files: Files, registry: Files, listed: Listing, now: Files)
  {
    && (forall name :: name in files ==> name in now && now[name] == files[name])
    && (forall name :: name in now && name !in files ==>
          name in listed && name in registry && now[name] == registry[name] && Sha256(registry[name]) == listed[name])
  }

  lemma PulledWhole(files: Files, registry: Files, listed: Listing, now: Files)
    requires PartlyPulled(files, registry, listed, now) && forall name :: name in listed ==> name in now
    ensures CanPull(files, registry, listed) && now == Pulled(files, registry, listed)
  {
  }
}
