/**
 Pruning stale bundles: marking walks the build manifest from its two entries and
 keeps what reachable nodes name. Manifests may be cyclic.
 */
module BundleMark {
  import opened Wrappers

  datatype Node = Node(file: Option<string>, css: seq<string>, assets: seq<string>,
                       imports: seq<string>, dynamicImports: seq<string>)

  type Manifest = map<string, Node>

  /** Every key a node imports, either way. */
  function Links(n: Node): seq<string> {
    n.imports + n.dynamicImports
  }

  /** Every file a node names; an empty file name is none. */
  function Names(n: Node): set<string> {
    (if n.file.Some? && n.file.value != "" then {n.file.value} else {})
    + (set c | c in n.css) + (set a | a in n.assets)
  }

  /** `path` leads from its first key to its last along links of the manifest. */
  ghost predicate IsPath(m: Manifest, path: seq<string>) {
    && path != []
    && forall i :: 0 <= i < |path| - 1 ==> path[i] in m && path[i + 1] in Links(m[path[i]])
  }

  ghost predicate Reaches(m: Manifest, from: string, to: string) {
    exists path :: IsPath(m, path) && path[0] == from && path[|path| - 1] == to
  }

  /** Keys named anywhere in the manifest, and its own. */
  function AllKeys(m: Manifest): set<string> {
    m.Keys + set k, l | k in m.Keys && l in Links(m[k]) :: l
  }

  /** Everything seen points to seen keys only, except what is still pending. */
  ghost predicate ClosedBut(m: Manifest, seen: set<string>, pending: set<string>) {
    forall k, l :: k in seen && k !in pending && k in m && l in Links(m[k]) ==> l in seen
  }

  ghost predicate KeepsWhatItSaw(m: Manifest, seen: set<string>, pending: set<string>, keep: set<string>) {
    && (forall k :: k in seen && k !in pending && k in m ==> Names(m[k]) <= keep)
    && (forall f :: f in keep ==> exists k :: k in seen && k in m && f in Names(m[k]))
  }

  lemma ReachesStep(m: Manifest, root: string, k: string, l: string)
    requires Reaches(m, root, k) && k in m && l in Links(m[k])
    ensures Reaches(m, root, l)
  {
    var path :| IsPath(m, path) && path[0] == root && path[|path| - 1] == k;
    var longer := path + [l];
    assert forall i :: 0 <= i < |longer| - 1 ==> longer[i] in m && longer[i + 1] in Links(m[longer[i]]);
    assert IsPath(m, longer);
  }

  lemma ReachesSelf(m: Manifest, k: string)
    ensures Reaches(m, k, k)
  {
    assert IsPath(m, [k]);
  }

  /** A closed set holds everything reachable from its members. */
  lemma {:induction false} ClosedHoldsPaths(m: Manifest, seen: set<string>, path: seq<string>)
    requires ClosedBut(m, seen, {}) && IsPath(m, path) && path[0] in seen
    ensures path[|path| - 1] in seen
  {
    if |path| > 1 {
      assert IsPath(m, path[1..]) by {
        assert forall i :: 0 <= i < |path[1..]| ==> path[1..][i] == path[i + 1];
      }
      ClosedHoldsPaths(m, seen, path[1..]);
    }
  }

  const INDEX := "index.html"
  const ADMIN := "admin.html"

  /** Reachable from one of the two entries. */
  ghost predicate Live(m: Manifest, k: string) {
    Reaches(m, INDEX, k) || Reaches(m, ADMIN, k)
  }

  /** What marking keeps true while the calls for the keys in `pending` are running. */
  ghost predicate Marked(m: Manifest, seen: set<string>, keep: set<string>, pending: set<string>) {
    && pending <= seen <= Universe(m)
    && ClosedBut(m, seen, pending)
    && KeepsWhatItSaw(m, seen, pending, keep)
    && forall k :: k in seen ==> Live(m, k)
  }

  function Universe(m: Manifest): set<string> {
    AllKeys(m) + {INDEX, ADMIN}
  }

  /** The sets that marking fills. */
  class Marker {
    const manifest: Manifest
    var seen: set<string>
    var keep: set<string>

    constructor (manifest: Manifest)
      ensures this.manifest == manifest && seen == {} && keep == {}
    {
      this.manifest := manifest;
      seen, keep := {}, {};
    }

    /** `mark`: afterwards `key` is seen, and what was seen on the way is closed and kept. */
    method Mark(key: string, ghost pending: set<string>)
      requires Marked(manifest, seen, keep, pending)
      requires key in Universe(manifest) && Live(manifest, key)
      modifies this
      ensures Marked(manifest, seen, keep, pending)
      ensures old(seen) <= seen && old(keep) <= keep && key in seen
      decreases Universe(manifest) - seen, 0
    {
      if key in seen {
        return;
      }
      seen := seen + {key};
      if key !in manifest {
        return;
      }
      var node := manifest[key];
      var named := if node.file.Some? && node.file.value != "" then {node.file.value} else {};
      keep := keep + named + (set c | c in node.css) + (set a | a in node.assets);
      assert Names(node) <= keep;
      MarkAll(key, node.imports, pending + {key});
      MarkAll(key, node.dynamicImports, pending + {key});
      assert forall l :: l in Links(node) ==> l in node.imports || l in node.dynamicImports;
    }

    /** `mark` for some links of a seen node. */
    method MarkAll(key: string, links: seq<string>, ghost pending: set<string>)
      requires Marked(manifest, seen, keep, pending)
      requires key in manifest && key in pending && forall l :: l in links ==> l in Links(manifest[key])
      modifies this
      ensures Marked(manifest, seen, keep, pending)
      ensures old(seen) <= seen && old(keep) <= keep && forall l :: l in links ==> l in seen
      decreases Universe(manifest) - seen, 1
    {
      for i := 0 to |links|
        invariant Marked(manifest, seen, keep, pending)
        invariant old(seen) <= seen && old(keep) <= keep && forall j :: 0 <= j < i ==> links[j] in seen
      {
        LinkIsLive(manifest, key, links[i]);
        Mark(links[i], pending);
      }
    }
  }

  lemma LinkIsLive(m: Manifest, k: string, l: string)
    requires k in m && l in Links(m[k]) && Live(m, k)
    ensures Live(m, l) && l in Universe(m)
  {
    if Reaches(m, INDEX, k) {
      ReachesStep(m, INDEX, k, l);
    } else {
      ReachesStep(m, ADMIN, k, l);
    }
  }

  /** Marked from both entries with nothing pending: seen is exactly the live keys. */
  lemma SeenIsLive(m: Manifest, seen: set<string>, keep: set<string>)
    requires Marked(m, seen, keep, {}) && INDEX in seen && ADMIN in seen
    ensures forall k :: k in seen <==> Live(m, k)
    ensures forall f :: f in keep <==> exists k :: Live(m, k) && k in m && f in Names(m[k])
  {
    forall k | Live(m, k)
      ensures k in seen
    {
      var root := if Reaches(m, INDEX, k) then INDEX else ADMIN;
      var path :| IsPath(m, path) && path[0] == root && path[|path| - 1] == k;
      ClosedHoldsPaths(m, seen, path);
    }
  }

  /** The kept files are exactly those that a node reachable from an entry names. */
  method KeptFiles(manifest: Manifest) returns (keep: set<string>)
    ensures forall f :: f in keep <==> exists k :: Live(manifest, k) && k in manifest && f in Names(manifest[k])
  {
    var marker := new Marker(manifest);
    ReachesSelf(manifest, INDEX);
    ReachesSelf(manifest, ADMIN);
    marker.Mark(INDEX, {});
    marker.Mark(ADMIN, {});
    SeenIsLive(manifest, marker.seen, marker.keep);
    keep := marker.keep;
  }

  // ---------------------------------------------------------------- pruning

  predicate EndsWith(s: string, suffix: string) {
    |suffix| <= |s| && s[|s| - |suffix|..] == suffix
  }

  /** The name without one `.gz`, `.br` or `.map` at its end. */
  function Base(f: string): string {
    if EndsWith(f, ".gz") || EndsWith(f, ".br") then f[..|f| - 3]
    else if EndsWith(f, ".map") then f[..|f| - 4]
    else f
  }

  predicate IsBundle(name: string) {
    EndsWith(name, ".js") || EndsWith(name, ".css") || EndsWith(name, ".bin")
  }

  /** The prune loop: a bundle goes exactly when no reachable node names it. */
  method Prune(manifest: Manifest, files: seq<string>) returns (pruned: seq<string>)
    ensures forall f :: f in pruned <==>
      f in files && IsBundle(Base(f))
      && !exists k :: Live(manifest, k) && k in manifest && "assets/" + Base(f) in Names(manifest[k])
  {
    var keep := KeptFiles(manifest);
    pruned := [];
    for i := 0 to |files|
      invariant forall f :: f in pruned <==> f in files[..i] && IsBundle(Base(f)) && "assets/" + Base(f) !in keep
    {
      var base := Base(files[i]);
      assert files[..i + 1] == files[..i] + [files[i]];
      if IsBundle(base) && "assets/" + base !in keep {
        pruned := pruned + [files[i]];
      }
    }
    assert files[..|files|] == files;
  }
}
