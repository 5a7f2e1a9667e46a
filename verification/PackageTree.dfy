/**
 The files of a node pack directory, the copy that drops interpreter caches, and the digest that
 ignores caches and the enabled flag (`_copy_package_tree` and `_hash_package_tree`).

 SHA-256 and UTF-8 are arbitrary functions: nothing below needs them to be injective.
 */
module PackageTree {
  import opened Common

  newtype Byte = b: int | 0 <= b < 256
  type Bytes = seq<Byte>

  /** What `json.loads` yields for a manifest: the flag, the identity, and the compact sorted dump of
      every field except `enabledByDefault`. */
  datatype Manifest = Manifest(packId: string, version: string, enabled: Option<bool>, canonical: Bytes)

  /** One regular file: its path segments relative to the package root, its bytes, and the manifest
      object those bytes parse to, if they parse to one. */
  datatype File = File(parts: seq<string>, raw: Bytes, json: Option<Manifest>)

  /** The regular files of a directory in the order the digest visits them. */
  type Tree = seq<File>

  datatype Hashing = Hashing(utf8: string -> Bytes, sha: Bytes -> string)

  const MANIFEST_PARTS: seq<string> := ["manifest.json"]

  // ----- File names ---------------------------------------------------------------------------

  /** `Path.suffix == ".pyc"`: a name that is only a leading dot and letters has no suffix. */
  predicate HasPycSuffix(parts: seq<string>) {
    |parts| > 0 && EndsWith(parts[|parts| - 1], ".pyc") && |parts[|parts| - 1]| > 4
  }

  /** `shutil.ignore_patterns("__pycache__", "*.pyc", "*.pyo")`, tried on every level of the walk. */
  predicate Ignored(name: string) {
    name == "__pycache__" || EndsWith(name, ".pyc") || EndsWith(name, ".pyo")
  }

  predicate Copied(f: File) {
    forall i | 0 <= i < |f.parts| :: !Ignored(f.parts[i])
  }

  predicate Hashed(f: File) {
    "__pycache__" !in f.parts && !HasPycSuffix(f.parts)
  }

  function PathText(parts: seq<string>): string {
    if parts == [] then ""
    else if |parts| == 1 then parts[0]
    else parts[0] + "/" + PathText(parts[1..])
  }

  // ----- Copying ------------------------------------------------------------------------------

  function CopyTree(t: Tree): Tree {
    if t == [] then [] else (if Copied(t[0]) then [t[0]] else []) + CopyTree(t[1..])
  }

  predicate Clean(t: Tree) {
    forall i | 0 <= i < |t| :: Copied(t[i])
  }

  lemma {:induction false} CopyIsClean(t: Tree)
    ensures Clean(CopyTree(t))
  {
    if t != [] {
      CopyIsClean(t[1..]);
    }
  }

  lemma {:induction false} CopyOfClean(t: Tree)
    requires Clean(t)
    ensures CopyTree(t) == t
  {
    if t != [] {
      CopyOfClean(t[1..]);
    }
  }

  /** A second copy drops nothing: what is in the version store is activated as it stands. */
  lemma CopyTwice(t: Tree)
    ensures CopyTree(CopyTree(t)) == CopyTree(t)
  {
    CopyIsClean(t);
    CopyOfClean(CopyTree(t));
  }

  // ----- The digest ---------------------------------------------------------------------------

  function Payload(f: File): Bytes {
    if f.parts == MANIFEST_PARTS && f.json.Some? then f.json.value.canonical else f.raw
  }

  function Frame(h: Hashing, f: File): Bytes {
    h.utf8(PathText(f.parts)) + [0] + Payload(f) + [0]
  }

  /** Every byte fed to the hash, in order. */
  function Framed(h: Hashing, t: Tree): Bytes {
    if t == [] then [] else (if Hashed(t[0]) then Frame(h, t[0]) else []) + Framed(h, t[1..])
  }

  function Digest(h: Hashing, t: Tree): string {
    h.sha(Framed(h, t))
  }

  lemma {:induction false} FramedAppend(h: Hashing, a: Tree, b: Tree)
    ensures Framed(h, a + b) == Framed(h, a) + Framed(h, b)
  {
    if a == [] {
      assert a + b == b;
    } else {
      assert (a + b)[1..] == a[1..] + b;
      FramedAppend(h, a[1..], b);
    }
  }

  lemma {:induction false} FramedCopyLength(h: Hashing, t: Tree)
    ensures |Framed(h, CopyTree(t))| <= |Framed(h, t)|
    ensures (exists f :: f in t && Hashed(f) && !Copied(f)) ==> |Framed(h, CopyTree(t))| < |Framed(h, t)|
  {
    if t != [] {
      FramedCopyLength(h, t[1..]);
      FramedAppend(h, if Copied(t[0]) then [t[0]] else [], CopyTree(t[1..]));
      assert Copied(t[0]) ==> Framed(h, [t[0]]) == (if Hashed(t[0]) then Frame(h, t[0]) else []) + [];
      assert t == [t[0]] + t[1..];
    }
  }

  lemma {:induction false} FramedCopySame(h: Hashing, t: Tree)
    requires forall f | f in t && Hashed(f) :: Copied(f)
    ensures Framed(h, CopyTree(t)) == Framed(h, t)
  {
    if t != [] {
      FramedCopySame(h, t[1..]);
      FramedAppend(h, if Copied(t[0]) then [t[0]] else [], CopyTree(t[1..]));
      assert Copied(t[0]) ==> Framed(h, [t[0]]) == (if Hashed(t[0]) then Frame(h, t[0]) else []) + [];
    }
  }

  /** A copy feeds the hash the same bytes exactly when every file that is hashed is also copied. The
      files that break this are `*.pyo`, a file named just `.pyc`, and anything below a directory whose
      own name ends in `.pyc` or `.pyo`. */
  lemma CopyPreservesFraming(h: Hashing, t: Tree)
    ensures Framed(h, CopyTree(t)) == Framed(h, t) <==> forall f | f in t && Hashed(f) :: Copied(f)
  {
    FramedCopyLength(h, t);
    if forall f | f in t && Hashed(f) :: Copied(f) {
      FramedCopySame(h, t);
    }
  }

  lemma DigestOfCleanCopy(h: Hashing, t: Tree)
    requires Clean(t)
    ensures Digest(h, CopyTree(t)) == Digest(h, t)
  {
    CopyOfClean(t);
  }

  /** Two different trees can feed the same bytes: a NUL inside a file reads like a file boundary. */
  lemma FramingIsNotInjective(h: Hashing)
    ensures exists s: Tree, t: Tree :: s != t && Clean(s) && Clean(t) && Framed(h, s) == Framed(h, t)
  {
    var one := [File(["a"], [1] + [0] + h.utf8("b") + [0] + [2], None)];
    var two := [File(["a"], [1], None), File(["b"], [2], None)];
    assert PathText(["a"]) == "a" && PathText(["b"]) == "b";
    assert Framed(h, two[1..]) == Frame(h, two[1]) + [];
    assert Framed(h, two) == Frame(h, two[0]) + (Frame(h, two[1]) + []);
    assert Framed(h, one) == Frame(h, one[0]) + [];
    assert Framed(h, one) == Framed(h, two);
    assert |one| != |two|;
  }

  // ----- The manifest and its flag ------------------------------------------------------------

  function ManifestOf(t: Tree): Option<Manifest> {
    if t == [] then None
    else if t[0].parts == MANIFEST_PARTS then t[0].json
    else ManifestOf(t[1..])
  }

  /** The tree after `manifest.json` was rewritten with another flag; `raw` is its new text. */
  function WithEnabled(t: Tree, enabled: Option<bool>, raw: Bytes): Tree {
    if t == [] then []
    else if t[0].parts == MANIFEST_PARTS && t[0].json.Some? then
      [t[0].(raw := raw, json := Some(t[0].json.value.(enabled := enabled)))] + t[1..]
    else if t[0].parts == MANIFEST_PARTS then t
    else [t[0]] + WithEnabled(t[1..], enabled, raw)
  }

  /** The text of `manifest.json`. */
  function ManifestText(t: Tree): Bytes {
    if t == [] then [] else if t[0].parts == MANIFEST_PARTS then t[0].raw else ManifestText(t[1..])
  }

  /** Writing the former flag and text back undoes a rewrite. */
  lemma {:induction false} WithEnabledBack(t: Tree, enabled: Option<bool>, raw: Bytes)
    requires ManifestOf(t).Some?
    ensures WithEnabled(WithEnabled(t, enabled, raw), ManifestOf(t).value.enabled, ManifestText(t)) == t
  {
    if t[0].parts != MANIFEST_PARTS {
      WithEnabledBack(t[1..], enabled, raw);
      assert WithEnabled(t, enabled, raw)[1..] == WithEnabled(t[1..], enabled, raw);
    }
  }

  /** Enabling or disabling never changes what is hashed... */
  lemma {:induction false} WithEnabledKeepsDigest(h: Hashing, t: Tree, enabled: Option<bool>, raw: Bytes)
    ensures Framed(h, WithEnabled(t, enabled, raw)) == Framed(h, t)
    ensures Digest(h, WithEnabled(t, enabled, raw)) == Digest(h, t)
  {
    if t != [] {
      WithEnabledKeepsDigest(h, t[1..], enabled, raw);
      var u := WithEnabled(t, enabled, raw);
      assert Hashed(u[0]) == Hashed(t[0]) && Frame(h, u[0]) == Frame(h, t[0]);
      assert Framed(h, u[1..]) == Framed(h, t[1..]);
    }
  }

  /** ... nor the identity, nor which files a copy keeps. */
  lemma {:induction false} WithEnabledKeepsManifest(t: Tree, enabled: Option<bool>, raw: Bytes)
    ensures ManifestOf(WithEnabled(t, enabled, raw)) ==
            match ManifestOf(t) case None => None case Some(m) => Some(m.(enabled := enabled))
  {
    if t != [] {
      WithEnabledKeepsManifest(t[1..], enabled, raw);
    }
  }

  lemma {:induction false} WithEnabledKeepsClean(t: Tree, enabled: Option<bool>, raw: Bytes)
    ensures Clean(WithEnabled(t, enabled, raw)) == Clean(t)
  {
    if t != [] {
      WithEnabledKeepsClean(t[1..], enabled, raw);
      var u := WithEnabled(t, enabled, raw);
      CleanSplit(t);
      CleanSplit(u);
      assert Copied(u[0]) == Copied(t[0]);
    }
  }

  lemma CleanSplit(t: Tree)
    requires t != []
    ensures Clean(t) <==> Copied(t[0]) && Clean(t[1..])
  {
    if Copied(t[0]) && Clean(t[1..]) {
      forall i | 0 <= i < |t| ensures Copied(t[i]) {
        if i > 0 {
          assert t[i] == t[1..][i - 1];
        }
      }
    }
  }

  // ----- The hashing loop ---------------------------------------------------------------------

  const COPY_CHUNK_SIZE: nat := 1024 * 1024

  /** Feeds one file chunk by chunk. */
  method FeedChunks(fed: Bytes, raw: Bytes) returns (r: Bytes)
    ensures r == fed + raw
  {
    r := fed;
    var at := 0;
    while at < |raw|
      invariant 0 <= at <= |raw|
      invariant r == fed + raw[..at]
    {
      var end := if at + COPY_CHUNK_SIZE <= |raw| then at + COPY_CHUNK_SIZE else |raw|;
      var chunk := raw[at..end];
      assert raw[..end] == raw[..at] + chunk;
      r := r + chunk;
      at := end;
    }
    assert raw[..at] == raw;
  }

  /** One step of the digest loop. */
  method FeedFile(h: Hashing, fed: Bytes, f: File) returns (r: Bytes)
    ensures r == fed + if Hashed(f) then Frame(h, f) else []
  {
    if !Hashed(f) {
      return fed;
    }
    r := fed + h.utf8(PathText(f.parts)) + [0];
    if f.parts == MANIFEST_PARTS && f.json.Some? {
      r := r + f.json.value.canonical;
    } else {
      r := FeedChunks(r, f.raw);
    }
    r := r + [0];
    assert r == fed + Frame(h, f);
  }

  method HashPackageTree(h: Hashing, t: Tree) returns (digest: string)
    ensures digest == Digest(h, t)
  {
    var fed: Bytes := [];
    for i := 0 to |t|
      invariant fed == Framed(h, t[..i])
    {
      FramedNext(h, t, i);
      fed := FeedFile(h, fed, t[i]);
    }
    assert t[..|t|] == t;
    digest := h.sha(fed);
  }

  lemma FramedNext(h: Hashing, t: Tree, i: nat)
    requires i < |t|
    ensures Framed(h, t[..i + 1]) == Framed(h, t[..i]) + if Hashed(t[i]) then Frame(h, t[i]) else []
  {
    assert t[..i + 1] == t[..i] + [t[i]];
    FramedAppend(h, t[..i], [t[i]]);
    assert Framed(h, [t[i]]) == (if Hashed(t[i]) then Frame(h, t[i]) else []) + [];
  }

  // ----- Which files count ----------------------------------------------------------------------

  /** The last four characters. */
  function Tail(name: string): string {
    if |name| < 4 then name else name[|name| - 4..]
  }

  /** Hashed is what lies in no cache directory and is no compiled file; copied is what has no part on its path that is
      a cache directory or ends as compiled files do, also those of the optimizing interpreter. */
  lemma FileIs(f: File)
    ensures Hashed(f) <==>
              && (forall i | 0 <= i < |f.parts| :: f.parts[i] != "__pycache__")
              && (f.parts == [] || |f.parts[|f.parts| - 1]| <= 4 || Tail(f.parts[|f.parts| - 1]) != ".pyc")
    ensures Copied(f) <==>
              forall i | 0 <= i < |f.parts| ::
                f.parts[i] != "__pycache__" && Tail(f.parts[i]) != ".pyc" && Tail(f.parts[i]) != ".pyo"
  {
    forall i | 0 <= i < |f.parts|
      ensures Ignored(f.parts[i]) <==> f.parts[i] == "__pycache__" || Tail(f.parts[i]) in {".pyc", ".pyo"}
    {
    }
  }
}
