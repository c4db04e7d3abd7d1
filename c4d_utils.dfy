/**
 * Helpers of the Cinema4D scene system (`C4DUtils`): short names with the
 * metadata suffix stripped, depth-first searches of the scene graph, the
 * directory-style path between two objects, and the animation clips that
 * target an object. The metadata module (`METADATA_TAG` and
 * `GetMetadataFromName`) is not part of this model: the tag and the
 * link-target lookup are parameters.
 */
module C4DUtils {
  import opened Wrappers
  import opened Strings

  /**
   * `getShortName`: the name up to the first occurrence of the metadata tag,
   * or the whole name when the tag does not occur. The result is a prefix of
   * the name, holds no tag, is followed by the tag when it was cut, and no
   * occurrence of the tag (even one overlapping the cut) starts before it.
   */
  function GetShortName(name: string, tag: string): (r: string)
    requires tag != []
    ensures r <= name && !Contains(r, tag)
    ensures !Contains(name, tag) ==> r == name
    ensures Contains(name, tag) ==> OccursAt(name, tag, |r|)
    ensures forall k: nat :: k < |r| ==> !OccursAt(name, tag, k)
  {
    ContainsIffIndexOf(name, tag);
    if !Contains(name, tag) then name
    else
      var k := IndexOf(name, tag).value;
      NoOccurrenceBeforeFirst(name, tag, k);
      name[..k]
  }

  /** Stripping twice strips nothing more. */
  lemma ShortNameIdempotent(name: string, tag: string)
    requires tag != []
    ensures GetShortName(GetShortName(name, tag), tag) == GetShortName(name, tag)
  {
  }

  /** A node of the scene graph (`THREE.Object3D`) as far as the helpers read it. */
  class Object3D {
    const name: string
    /** `type` */
    const kind: string
    const parent: Option<Object3D>
    const children: seq<Object3D>
    /** Distance from the root; bounds the walk up the parents. */
    ghost const depth: nat
    /** Height of the subtree; bounds the walk down the children. */
    ghost const height: nat

    constructor (name: string, kind: string, parent: Option<Object3D>, children: seq<Object3D>)
      requires parent.Some? ==> Rooted(parent.value)
      requires forall c :: c in children ==> Finite(c)
      ensures this.name == name && this.kind == kind
      ensures this.parent == parent && this.children == children
      ensures Rooted(this) && Finite(this)
    {
      this.name := name;
      this.kind := kind;
      this.parent := parent;
      this.children := children;
      depth := if parent.Some? then parent.value.depth + 1 else 0;
      height := MaxHeight(children) + 1;
    }
  }

  ghost function MaxHeight(cs: seq<Object3D>): (h: nat)
    ensures forall c :: c in cs ==> c.height <= h
  {
    if cs == [] then 0
    else
      var rest := MaxHeight(cs[1..]);
      assert forall c :: c in cs ==> c == cs[0] || c in cs[1..];
      if cs[0].height > rest then cs[0].height else rest
  }

  /** The chain of parents is finite. */
  ghost predicate Rooted(o: Object3D)
    decreases o.depth
  {
    o.parent.Some? ==> o.parent.value.depth < o.depth && Rooted(o.parent.value)
  }

  /** The subtree below `o` is finite. */
  ghost predicate Finite(o: Object3D)
    decreases o.height
  {
    forall c :: c in o.children ==> c.height < o.height && Finite(c)
  }

  /** The subtree of `o` in depth-first pre-order: `o`, then each child's subtree in turn. */
  ghost function Preorder(o: Object3D): (r: seq<Object3D>)
    requires Finite(o)
    ensures r != [] && r[0] == o
    decreases o.height, 1, 0
  {
    [o] + PreorderAll(o.children, o.height)
  }

  ghost function PreorderAll(cs: seq<Object3D>, bound: nat): seq<Object3D>
    requires forall c :: c in cs ==> c.height < bound && Finite(c)
    decreases bound, 0, |cs|
  {
    if cs == [] then [] else Preorder(cs[0]) + PreorderAll(cs[1..], bound)
  }

  /** The subtrees of one more child come after those of the children before it. */
  lemma PreorderAllPrefix(cs: seq<Object3D>, i: nat, bound: nat)
    requires i < |cs|
    requires forall c :: c in cs ==> c.height < bound && Finite(c)
    ensures PreorderAll(cs[..i + 1], bound) == PreorderAll(cs[..i], bound) + Preorder(cs[i])
  {
    assert cs[..i + 1] == cs[..i] + [cs[i]];
    PreorderAllSnoc(cs[..i], cs[i], bound);
  }

  lemma {:induction false} PreorderAllSnoc(cs: seq<Object3D>, c: Object3D, bound: nat)
    requires forall x :: x in cs + [c] ==> x.height < bound && Finite(x)
    ensures PreorderAll(cs + [c], bound) == PreorderAll(cs, bound) + Preorder(c)
  {
    if cs == [] {
      assert cs + [c] == [c];
    } else {
      assert (cs + [c])[1..] == cs[1..] + [c];
      PreorderAllSnoc(cs[1..], c, bound);
    }
  }

  /** The first element of `s` satisfying `p`, if any. */
  function First<T(==)>(s: seq<T>, p: T -> bool): (r: Option<T>)
    ensures r.Some? ==> r.value in s && p(r.value)
    ensures r.None? <==> forall x :: x in s ==> !p(x)
  {
    if s == [] then None
    else if p(s[0]) then Some(s[0])
    else
      assert forall x :: x in s ==> x == s[0] || x in s[1..];
      First(s[1..], p)
  }

  /** What `First` finds comes before every other element satisfying `p`. */
  lemma {:induction false} FirstIsFirst<T>(s: seq<T>, p: T -> bool, i: nat)
    requires i < |s| && p(s[i])
    ensures First(s, p).Some?
    ensures exists k :: 0 <= k <= i && s[k] == First(s, p).value
  {
    if !p(s[0]) {
      FirstIsFirst(s[1..], p, i - 1);
      var k :| 0 <= k <= i - 1 && s[1..][k] == First(s[1..], p).value;
      assert s[k + 1] == s[1..][k];
    }
  }

  /** Searching a concatenation searches the first part, then the second. */
  lemma {:induction false} FirstConcat<T>(a: seq<T>, b: seq<T>, p: T -> bool)
    ensures First(a + b, p) == if First(a, p).Some? then First(a, p) else First(b, p)
  {
    if a != [] {
      assert (a + b)[1..] == a[1..] + b;
      FirstConcat(a[1..], b, p);
    } else {
      assert a + b == b;
    }
  }

  function HasShortName(tag: string, name: string): Object3D -> bool
    requires tag != []
  {
    (o: Object3D) => GetShortName(o.name, tag) == name
  }

  function HasKind(kind: string): Object3D -> bool {
    (o: Object3D) => o.kind == kind
  }

  /**
   * `getObjectByShortName`: the root when its short name matches, else the
   * first match in depth-first pre-order over the children, else undefined.
   */
  method GetObjectByShortName(o: Object3D, name: string, tag: string) returns (r: Option<Object3D>)
    requires Finite(o) && tag != []
    ensures r == First(Preorder(o), HasShortName(tag, name))
    decreases o.height
  {
    var p := HasShortName(tag, name);
    if GetShortName(o.name, tag) == name {
      return Some(o);
    }
    assert Preorder(o) == [o] + PreorderAll(o.children, o.height);
    FirstConcat([o], PreorderAll(o.children, o.height), p);
    var i := 0;
    while i < |o.children|
      invariant 0 <= i <= |o.children|
      invariant First(PreorderAll(o.children[..i], o.height), p).None?
    {
      var child := o.children[i];
      var found := GetObjectByShortName(child, name, tag);
      PreorderAllPrefix(o.children, i, o.height);
      FirstConcat(PreorderAll(o.children[..i], o.height), Preorder(child), p);
      if found.Some? {
        SearchRest(o.children, i + 1, o.height, p);
        return found;
      }
      i := i + 1;
    }
    assert o.children[..i] == o.children;
    return None;
  }

  /**
   * When the subtrees of `cs[..i]` hold a match, searching all of `cs` stops
   * there: the subtrees of the remaining children are never reached.
   */
  lemma SearchRest(cs: seq<Object3D>, i: nat, bound: nat, p: Object3D -> bool)
    requires i <= |cs|
    requires forall c :: c in cs ==> c.height < bound && Finite(c)
    requires First(PreorderAll(cs[..i], bound), p).Some?
    ensures First(PreorderAll(cs, bound), p) == First(PreorderAll(cs[..i], bound), p)
  {
    PreorderAllSplit(cs, i, bound);
    FirstConcat(PreorderAll(cs[..i], bound), PreorderAll(cs[i..], bound), p);
  }

  lemma {:induction false} PreorderAllSplit(cs: seq<Object3D>, i: nat, bound: nat)
    requires i <= |cs|
    requires forall c :: c in cs ==> c.height < bound && Finite(c)
    ensures PreorderAll(cs, bound) == PreorderAll(cs[..i], bound) + PreorderAll(cs[i..], bound)
  {
    if i > 0 {
      assert cs[..i][1..] == cs[1..][..i - 1];
      assert cs[i..] == cs[1..][i - 1..];
      PreorderAllSplit(cs[1..], i - 1, bound);
    } else {
      assert cs[..i] == [] && cs[i..] == cs;
    }
  }

  /** What `getChildWithType` returns: null for a null root, undefined when nothing matches. */
  datatype TypeSearch = Null | Undefined | Found(object: Object3D)

  /**
   * `getChildWithType`: null for a null root; the root when its type
   * matches, else the first match in depth-first pre-order, else undefined.
   */
  method GetChildWithType(o: Option<Object3D>, kind: string) returns (r: TypeSearch)
    requires o.Some? ==> Finite(o.value)
    ensures o.None? ==> r == Null
    ensures o.Some? ==> match First(Preorder(o.value), HasKind(kind))
      case Some(x) => r == Found(x)
      case None => r == Undefined
    decreases if o.Some? then o.value.height else 0
  {
    if o.None? {
      return Null;
    }
    var root := o.value;
    var p := HasKind(kind);
    if root.kind == kind {
      return Found(root);
    }
    FirstConcat([root], PreorderAll(root.children, root.height), p);
    var i := 0;
    while i < |root.children|
      invariant 0 <= i <= |root.children|
      invariant First(PreorderAll(root.children[..i], root.height), p).None?
    {
      var child := root.children[i];
      var found := GetChildWithType(Some(child), kind);
      PreorderAllPrefix(root.children, i, root.height);
      FirstConcat(PreorderAll(root.children[..i], root.height), Preorder(child), p);
      if found != Undefined {
        SearchRest(root.children, i + 1, root.height, p);
        return found;
      }
      i := i + 1;
    }
    assert root.children[..i] == root.children;
    return Undefined;
  }

  /**
   * The names `getStringPathFromParent` collects, in the order it pushes
   * them: the target's own name, then each parent's, up to `parent` or the
   * root, whichever comes first.
   */
  ghost function NamesUp(t: Object3D, parent: Object3D): (r: seq<string>)
    requires Rooted(t)
    ensures r != [] && r[0] == t.name
    decreases t.depth
  {
    if t == parent || t.parent.None? then [t.name]
    else [t.name] + NamesUp(t.parent.value, parent)
  }

  function Reverse<T>(s: seq<T>): (r: seq<T>)
    ensures |r| == |s|
    ensures forall i :: 0 <= i < |s| ==> r[i] == s[|s| - 1 - i]
  {
    if s == [] then [] else Reverse(s[1..]) + [s[0]]
  }

  /** `'/' + entry` for each entry, in order. */
  function Join(entries: seq<string>): string {
    if entries == [] then "" else Join(entries[..|entries| - 1]) + "/" + entries[|entries| - 1]
  }

  /**
   * The path string: every collected name except the topmost one (the
   * parent's, or the root's when the parent was never reached), from the
   * top down, each after a '/'.
   */
  ghost function PathString(t: Object3D, parent: Object3D): string
    requires Rooted(t)
  {
    Join(Reverse(NamesUp(t, parent))[1..])
  }

  /** From an object to itself the path is empty. */
  lemma PathToSelf(t: Object3D)
    requires Rooted(t)
    ensures PathString(t, t) == ""
  {
    assert Reverse(NamesUp(t, t))[1..] == [];
  }

  /** Below the parent, each step down appends `/name`. */
  lemma PathStep(t: Object3D, parent: Object3D)
    requires Rooted(t) && t != parent && t.parent.Some?
    ensures PathString(t, parent) == PathString(t.parent.value, parent) + "/" + t.name
  {
    var up := NamesUp(t.parent.value, parent);
    assert NamesUp(t, parent) == [t.name] + up;
    var rev := Reverse([t.name] + up);
    assert rev == Reverse(up) + [t.name] by {
      assert ([t.name] + up)[1..] == up;
    }
    assert rev[1..] == Reverse(up)[1..] + [t.name];
    assert rev[1..][..|rev[1..]| - 1] == Reverse(up)[1..];
  }

  /** A direct child of the parent is reached by `/name`. */
  lemma PathOfChild(t: Object3D, parent: Object3D)
    requires Rooted(t) && t != parent && t.parent == Some(parent)
    ensures PathString(t, parent) == "/" + t.name
  {
    PathStep(t, parent);
    PathToSelf(parent);
  }

  /**
   * `getStringPathFromParent`, called without a path: the walk up the
   * parents (a tail recursion in the source) pushes each parent's name, then
   * the list is reversed, its first entry dropped and the rest joined.
   */
  method GetStringPathFromParent(target: Object3D, parent: Object3D) returns (s: string)
    requires Rooted(target)
    ensures s == PathString(target, parent)
  {
    var path := [target.name];
    var t := target;
    while t != parent && t.parent.Some?
      invariant Rooted(t)
      invariant path + NamesUp(t, parent)[1..] == NamesUp(target, parent)
      invariant path != [] && path[|path| - 1] == t.name
      decreases t.depth
    {
      var up := t.parent.value;
      assert NamesUp(t, parent) == [t.name] + NamesUp(up, parent);
      path := path + [up.name];
      t := up;
    }
    assert NamesUp(t, parent) == [t.name];
    assert path == NamesUp(target, parent);
    s := PathToString(path);
  }

  /** `pathToString`: reverse, drop the first entry, then add `'/' + entry` for each. */
  method PathToString(path: seq<string>) returns (result: string)
    requires path != []
    ensures result == Join(Reverse(path)[1..])
  {
    var entries := Reverse(path)[1..];
    result := "";
    var i := 0;
    while i < |entries|
      invariant 0 <= i <= |entries|
      invariant result == Join(entries[..i])
    {
      assert entries[..i + 1][..i] == entries[..i];
      result := result + "/" + entries[i];
      i := i + 1;
    }
    assert entries[..i] == entries;
  }

  /** One track of a keyframe clip (`KeyframeTrack`), e.g. "Rover.position". */
  datatype Track = Track(name: string)

  /** An `AnimationClip`. */
  datatype Clip = Clip(name: string, tracks: seq<Track>)

  /**
   * `track.name.slice(0, track.name.lastIndexOf('.'))`: the part before the
   * last '.'; with no '.', `lastIndexOf` is -1 and the slice drops the last
   * character.
   */
  function TrackObjectName(n: string): (r: string)
    ensures r <= n
    ensures LastIndexOf(n, '.') >= 0 ==>
      |r| < |n| && n[|r|] == '.' && forall i :: |r| < i < |n| ==> n[i] != '.'
    ensures LastIndexOf(n, '.') < 0 && n != [] ==> |r| == |n| - 1
  {
    var k := LastIndexOf(n, '.');
    if k >= 0 then
      n[..k]
    else if n == [] then [] else n[..|n| - 1]
  }

  /**
   * Some track of the clip animates the object named `name`: the metadata
   * read from the track's object name links to `name`.
   */
  ghost predicate Animates(clip: Clip, name: string, linkTarget: string -> Option<string>) {
    exists i :: 0 <= i < |clip.tracks| && linkTarget(TrackObjectName(clip.tracks[i].name)) == Some(name)
  }

  /** The filter callback of `findAnimationClipsForObject`: a scan of the tracks with an early exit. */
  method ClipAnimates(clip: Clip, name: string, linkTarget: string -> Option<string>) returns (b: bool)
    ensures b <==> Animates(clip, name, linkTarget)
  {
    var i := 0;
    while i < |clip.tracks|
      invariant 0 <= i <= |clip.tracks|
      invariant forall j :: 0 <= j < i ==> linkTarget(TrackObjectName(clip.tracks[j].name)) != Some(name)
    {
      var track := clip.tracks[i];
      var trackObjectName := TrackObjectName(track.name);
      if linkTarget(trackObjectName) == Some(name) {
        return true;
      }
      i := i + 1;
    }
    return false;
  }

  /** The clips that animate `name`, in their original order. */
  ghost function Animating(clips: seq<Clip>, name: string, linkTarget: string -> Option<string>): seq<Clip> {
    if clips == [] then []
    else
      var last := clips[|clips| - 1];
      Animating(clips[..|clips| - 1], name, linkTarget) + (if Animates(last, name, linkTarget) then [last] else [])
  }

  /** `a` is `b` with some elements left out, the rest in order. */
  predicate Subsequence<T(==)>(a: seq<T>, b: seq<T>) {
    a == [] || (b != [] && ((a[0] == b[0] && Subsequence(a[1..], b[1..])) || Subsequence(a, b[1..])))
  }

  lemma {:induction false} SubsequenceSnoc<T>(a: seq<T>, b: seq<T>, x: T, keep: bool)
    requires Subsequence(a, b)
    ensures Subsequence(a + (if keep then [x] else []), b + [x])
    decreases |b|
  {
    if a == [] {
      if keep {
        assert a + [x] == [x];
        SubsequenceOfEmpty(b, x);
      }
    } else {
      assert (b + [x])[1..] == b[1..] + [x];
      assert (b + [x])[0] == b[0];
      if a[0] == b[0] && Subsequence(a[1..], b[1..]) {
        SubsequenceSnoc(a[1..], b[1..], x, keep);
        assert (a + (if keep then [x] else []))[1..] == a[1..] + (if keep then [x] else []);
      } else {
        SubsequenceSnoc(a, b[1..], x, keep);
      }
    }
  }

  lemma {:induction false} SubsequenceOfEmpty<T>(b: seq<T>, x: T)
    ensures Subsequence([x], b + [x])
    decreases |b|
  {
    if b != [] {
      assert (b + [x])[1..] == b[1..] + [x];
      SubsequenceOfEmpty(b[1..], x);
    } else {
      assert Subsequence([x][1..], [x][1..]);
    }
  }

  /**
   * The clips kept are an order-preserving subsequence of `clips`; each of
   * them animates `name`, and every clip of `clips` that does is kept.
   */
  lemma {:induction false} AnimatingIsFilter(clips: seq<Clip>, name: string, linkTarget: string -> Option<string>)
    ensures Subsequence(Animating(clips, name, linkTarget), clips)
    ensures forall c :: c in Animating(clips, name, linkTarget) <==> c in clips && Animates(c, name, linkTarget)
  {
    if clips != [] {
      var init := clips[..|clips| - 1];
      var last := clips[|clips| - 1];
      AnimatingIsFilter(init, name, linkTarget);
      assert clips == init + [last];
      SubsequenceSnoc(Animating(init, name, linkTarget), init, last, Animates(last, name, linkTarget));
    }
  }

  /** `findAnimationClipsForObject`, for the object (or name) `obj`. */
  method FindAnimationClipsForObject(clips: seq<Clip>, obj: string, tag: string,
                                     linkTarget: string -> Option<string>)
    returns (r: seq<Clip>)
    requires tag != []
    ensures r == Animating(clips, GetShortName(obj, tag), linkTarget)
  {
    var name := GetShortName(obj, tag);
    r := [];
    var i := 0;
    while i < |clips|
      invariant 0 <= i <= |clips|
      invariant r == Animating(clips[..i], name, linkTarget)
    {
      assert clips[..i + 1][..i] == clips[..i];
      var keep := ClipAnimates(clips[i], name, linkTarget);
      if keep {
        r := r + [clips[i]];
      }
      i := i + 1;
    }
    assert clips[..i] == clips;
  }
}
