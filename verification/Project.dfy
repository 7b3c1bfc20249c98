/** The project as discovery hands it over, with every Dockerfile already parsed. */
module Project {
  import opened Wrappers
  import opened Ordering

  const HIVE_PREFIX := "__hive__/"
  const HIVE_PARENT_PLACEHOLDER := "__hive_parent__"
  const BACKEND_NIX := "nix"
  const BACKEND_CHISEL := "chisel"

  /** FROM __hive__/<imageName>:<tag> */
  datatype HiveRef = HiveRef(imageName: string, tag: string)

  /** What an entry point path leads to: no path, a file that cannot be read, or its references. */
  datatype EntryPoint = NoPath | Unreadable | Dockerfile(refs: seq<HiveRef>, usesHiveParent: bool)

  datatype Variant = Variant(
    entryPoint: EntryPoint,
    backend: string,
    nixParent: Option<string>,
    chiselParent: Option<string>,
    tagSuffix: string)

  /** dir is the directory relative to the project root, with symbolic links resolved. */
  datatype Image = Image(
    entryPoint: EntryPoint,
    backend: string,
    nixParent: string,
    chiselParent: string,
    variants: map<string, Variant>,
    dependsOn: seq<string>,
    dir: string)

  /** ImagesByName: several image definitions can share a name. */
  type Project = map<string, seq<Image>>

  function Refs(entryPoint: EntryPoint): seq<HiveRef> {
    if entryPoint.Dockerfile? then entryPoint.refs else []
  }

  // ---------- backend parents ----------

  function ImageParentRef(img: Image): string {
    if img.backend == BACKEND_NIX then img.nixParent
    else if img.backend == BACKEND_CHISEL then img.chiselParent
    else ""
  }

  function VariantParentRef(img: Image, variant: Variant): string {
    var backend := if variant.backend == "" then img.backend else variant.backend;
    if backend == BACKEND_NIX then variant.nixParent.GetOr(img.nixParent)
    else if backend == BACKEND_CHISEL then variant.chiselParent.GetOr(img.chiselParent)
    else ""
  }

  /** The backend parents of an image and of its variants. */
  function ParentRefs(img: Image): set<string> {
    ({ImageParentRef(img)} + set v | v in img.variants :: VariantParentRef(img, img.variants[v])) - {""}
  }

  /** The backend parents of an image and of some of its variants. */
  function ParentsAmong(img: Image, among: set<string>): set<string> {
    ({ImageParentRef(img)} + set v | v in among && v in img.variants :: VariantParentRef(img, img.variants[v])) - {""}
  }

  lemma ParentsAmongNone(img: Image)
    ensures ParentsAmong(img, {}) == {ImageParentRef(img)} - {""}
    ensures ParentsAmong(img, img.variants.Keys) == ParentRefs(img)
  {
    hide ImageParentRef, VariantParentRef;
  }

  lemma OneMoreVariantParent(img: Image, among: set<string>, v: string)
    requires v in img.variants
    ensures ParentsAmong(img, among + {v}) == ParentsAmong(img, among) + ({VariantParentRef(img, img.variants[v])} - {""})
  {
    hide ImageParentRef, VariantParentRef;
  }

  method BackendParentRefs(img: Image) returns (refs: seq<string>)
    ensures Elems(refs) == ParentRefs(img)
  {
    hide ImageParentRef, VariantParentRef, ParentsAmong, ParentRefs;
    refs := [];
    if ImageParentRef(img) != "" {
      refs := [ImageParentRef(img)];
    }
    ParentsAmongNone(img);
    var todo := img.variants.Keys;
    ghost var done: set<string> := {};
    while todo != {}
      invariant todo + done == img.variants.Keys
      invariant Elems(refs) == ParentsAmong(img, done)
      decreases |todo|
    {
      var v :| v in todo;
      var parent := VariantParentRef(img, img.variants[v]);
      OneMoreVariantParent(img, done, v);
      todo, done := todo - {v}, done + {v};
      if parent != "" {
        Append(refs, parent);
        refs := refs + [parent];
      }
    }
    assert done == img.variants.Keys;
  }

  /** strings.LastIndex(s, ":") */
  function LastColon(s: string): (r: int)
    ensures -1 <= r < |s|
    ensures r >= 0 ==> s[r] == ':'
    ensures forall k :: r < k < |s| ==> s[k] != ':'
  {
    if s == "" then -1
    else if s[|s|-1] == ':' then |s| - 1
    else LastColon(s[..|s|-1])
  }

  predicate HasSuffix(s: string, suffix: string) {
    |suffix| <= |s| && s[|s|-|suffix|..] == suffix
  }

  /** A parent that is a hive reference, cut at its last colon; both scanners ignore anything else. */
  function ParseParent(parent: string): Option<HiveRef> {
    if parent == "" || parent == HIVE_PARENT_PLACEHOLDER || !(HIVE_PREFIX <= parent) then None
    else
      var rest := parent[|HIVE_PREFIX|..];
      var idx := LastColon(rest);
      if idx < 1 then None else Some(HiveRef(rest[..idx], rest[idx+1..]))
  }

  /** A graph node name of a variant. */
  function VariantNodeID(imageName: string, variantName: string): string {
    imageName + "/" + variantName
  }
}
