/** The package that owns a directory: the nearest manifest with a name, remembered between lookups. */
module PackageOwner {
  import opened Options

  type Name = string

  /** A directory, as the names on the way down from the file system's root. */
  type Directory = seq<string>

  /** What reading the manifest of one directory gives. */
  datatype Manifest = NoFile | NotJson | Unnamed | Named(name: Name)

  /** The manifests on disk; a directory that is not a key has none. */
  type Files = map<Directory, Manifest>

  datatype Result = Owner(name: Option<Name>) | SyntaxError(at: Directory)

  function ManifestAt(files: Files, d: Directory): Manifest {
    if d in files then files[d] else NoFile
  }

  /** The directory above; the root is its own parent. */
  function Dirname(d: Directory): Directory {
    if d == [] then d else d[..|d| - 1]
  }

  /** The owner without a memory: up from `d` to the first named manifest. */
  function OwnerOf(files: Files, d: Directory): Result
    decreases |d|
  {
    match ManifestAt(files, d)
    case Named(name) => Owner(Some(name))
    case NotJson => SyntaxError(d)
    case _ => if Dirname(d) == d then Owner(None) else OwnerOf(files, Dirname(d))
  }

  /** There is no manifest, or it has no name. */
  predicate Silent(files: Files, d: Directory) {
    d !in files || files[d] == NoFile || files[d] == Unnamed
  }

  /** The owner is named by the longest prefix of the path whose manifest says anything. */
  lemma {:induction false} OwnerIsNearest(files: Files, d: Directory) returns (k: nat)
    ensures k <= |d| && forall j | k < j <= |d| :: Silent(files, d[..j])
    ensures
      if Silent(files, d[..k]) then k == 0 && OwnerOf(files, d) == Owner(None)
      else if files[d[..k]].Named? then OwnerOf(files, d) == Owner(Some(files[d[..k]].name))
      else OwnerOf(files, d) == SyntaxError(d[..k])
    decreases |d|
  {
    assert d[..|d|] == d;
    k := |d|;
    if Silent(files, d) && d != [] {
      var up := Dirname(d);
      k := OwnerIsNearest(files, up);
      assert forall j | 0 <= j <= |up| :: up[..j] == d[..j];
    }
  }

  class BundleInputIsolation {
    var packages: map<Directory, Option<Name>>

    /** Every remembered answer is the one an empty memory would give. */
    ghost predicate Valid(files: Files)
      reads this
    {
      forall d | d in packages :: OwnerOf(files, d) == Owner(packages[d])
    }

    constructor (ghost files: Files)
      ensures Valid(files) && packages == map[]
    {
      packages := map[];
    }

    /** Forget everything, before a build may see other files. */
    method Reset(ghost files: Files)
      modifies this
      ensures packages == map[] && Valid(files)
    {
      packages := map[];
    }

    /** The answer does not depend on the memory, and the memory stays right. */
    method PackageName(files: Files, d: Directory) returns (r: Result)
      requires Valid(files)
      modifies this
      ensures Valid(files) && r == OwnerOf(files, d)
      ensures r.Owner? ==> d in packages
      ensures old(packages).Keys <= packages.Keys
      ensures forall k | k in packages && k !in old(packages) :: k <= d
      ensures r.SyntaxError? ==> packages == old(packages)
      decreases |d|
    {
      if d in packages {
        return Owner(packages[d]);
      }
      var name: Option<Name> := None;
      var manifest := ManifestAt(files, d);
      if manifest.NotJson? {
        return SyntaxError(d);
      }
      if manifest.Named? {
        name := Some(manifest.name);
      }
      if name.None? && Dirname(d) != d {
        r := PackageName(files, Dirname(d));
        if r.SyntaxError? {
          return;
        }
        name := r.name;
      }
      packages := packages[d := name];
      r := Owner(name);
    }

    /** Many lookups, whatever was asked before. */
    method PackageNames(files: Files, ds: seq<Directory>) returns (rs: seq<Result>)
      requires Valid(files)
      modifies this
      ensures Valid(files) && |rs| == |ds|
      ensures forall i | 0 <= i < |ds| :: rs[i] == OwnerOf(files, ds[i])
    {
      rs := [];
      for i := 0 to |ds|
        invariant Valid(files) && |rs| == i
        invariant forall j | 0 <= j < i :: rs[j] == OwnerOf(files, ds[j])
      {
        var r := PackageName(files, ds[i]);
        rs := rs + [r];
      }
    }
  }
}
