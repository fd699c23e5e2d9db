/** Dotted resource names: how they split into paths, and how ids and parents follow the paths. */
module ResourceNames {
  import opened Ids
  import opened LockHierarchy
  import opened LogRecords

  /** The program keys its id map by the segments joined with dots; see `PathIsKey`. */
  type Path = seq<string>

  /** The non-empty segments between dots. */
  function Segments(name: string): Path
    decreases |name|
  {
    if name == "" then []
    else
      var i := Find(name, '.');
      (if i == 0 then [] else [name[..i]]) + Segments(Rest(name, i))
  }

  ghost predicate IsPath(p: Path) {
    forall i :: 0 <= i < |p| ==> p[i] != "" && '.' !in p[i]
  }

  ghost function Joined(p: Path): string
    requires p != []
  {
    if |p| == 1 then p[0] else p[0] + "." + Joined(p[1..])
  }

  lemma {:induction false} SegmentsArePath(name: string)
    ensures IsPath(Segments(name))
    decreases |name|
  {
    if name != "" {
      SegmentsArePath(Rest(name, Find(name, '.')));
    }
  }

  lemma SegmentsStep(rest: string)
    requires rest != ""
    ensures var i := Find(rest, '.');
            && i <= |rest| && |Rest(rest, i)| < |rest|
            && Segments(rest) == (if rest[..i] == "" then [] else [rest[..i]]) + Segments(Rest(rest, i))
  {
    hide Find;
  }

  lemma AppendSegment(path: Path, segment: string, more: Path)
    ensures path + ([segment] + more) == (path + [segment]) + more
    ensures path + ([] + more) == path + more
    ensures (path + [segment])[..|path|] == path
  {
  }

  /** One turn of the loop over the segments: `path` is what it has found, `rest` what is left to read. */
  lemma NextSegment(whole: Path, path: Path, rest: string)
    requires rest != "" && whole == path + Segments(rest)
    ensures var i := Find(rest, '.');
            && i <= |rest| && |Rest(rest, i)| < |rest|
            && var segment := rest[..i];
               if segment == "" then whole == path + Segments(Rest(rest, i))
               else whole == (path + [segment]) + Segments(Rest(rest, i)) && (path + [segment])[..|path|] == path
  {
    hide Find, Segments, Rest;
    var i := Find(rest, '.');
    SegmentsStep(rest);
    AppendSegment(path, rest[..i], Segments(Rest(rest, i)));
  }

  lemma LastSegment(whole: Path, path: Path)
    requires whole == path + Segments("")
    ensures whole == path
  {
  }

  /** What splitting is: a name without dots is its own only segment, the empty name has none, and the segments of
      two names with a dot between them are those of the one followed by those of the other. */
  lemma {:induction false} SegmentsSplit(a: string, b: string)
    ensures Segments("") == []
    ensures a != "" && '.' !in a ==> Segments(a) == [a]
    ensures Segments(a + "." + b) == Segments(a) + Segments(b)
    decreases |a|
  {
    hide Find, Segments;
    NoSegments();
    var name := a + "." + b;
    SegmentsStep(name);
    if a == "" {
      FindAt("", '.', b);
      assert "" + ['.'] + b == name && [] + Segments(b) == Segments(b);
    } else {
      SegmentsStep(a);
      var i := Find(a, '.');
      if i == |a| {
        FindAt(a, '.', b);
        assert a[..i] == a && [a] + [] == [a];
      } else {
        var front, rest := a[..i], Rest(a, i);
        assert a == front + ['.'] + rest;
        assert name == front + ['.'] + (rest + "." + b);
        FindAt(front, '.', rest + "." + b);
        SegmentsSplit(rest, b);
        var head: Path := if front == "" then [] else [front];
        AppendPaths(head, Segments(rest), Segments(b));
      }
    }
  }

  lemma AppendPaths(a: Path, b: Path, c: Path)
    ensures a + (b + c) == (a + b) + c
  {
  }

  lemma NoSegments()
    ensures Segments("") == []
  {
  }

  /** Joining loses nothing, so different paths have different keys. */
  lemma {:induction false} PathIsKey(p: Path)
    requires p != [] && IsPath(p)
    ensures Segments(Joined(p)) == p
    decreases |p|
  {
    hide Find, Segments;
    var name := Joined(p);
    SegmentsStep(name);
    if |p| == 1 {
      FindNot(p[0], '.');
      NoSegments();
      assert name[..|p[0]|] == p[0];
      assert [p[0]] + [] == p;
    } else {
      FindAt(p[0], '.', Joined(p[1..]));
      PathIsKey(p[1..]);
      assert name[..|p[0]|] == p[0];
      assert [p[0]] + p[1..] == p;
    }
  }

  // ---------------------------------------------------------------- ids and parents

  ghost predicate NameOk(ids: map<Path, ResId>, parent: Parents, p: Path)
    requires p in ids
  {
    && p != []
    && (if |p| == 1 then ids[p] !in parent
        else && p[..|p| - 1] in ids && ids[p] in parent && parent[ids[p]] == ids[p[..|p| - 1]])
  }

  /** Every path has its own id, and the parent of a path's id is the id of the path without its last
      segment. */
  ghost predicate NamesOk(ids: map<Path, ResId>, parent: Parents, next: ResId) {
    && (forall p :: p in ids ==> 1 <= ids[p] < next)
    && (forall p, q :: p in ids && q in ids && ids[p] == ids[q] ==> p == q)
    && (forall p {:trigger NameOk(ids, parent, p)} :: p in ids ==> NameOk(ids, parent, p))
    && (forall c :: c in parent ==> NamedBelow(ids, c))
  }

  /** `c` is the id of a path with more than one segment. */
  ghost predicate NamedBelow(ids: map<Path, ResId>, c: ResId) {
    exists p :: p in ids && ids[p] == c && |p| > 1
  }

  /** No resource has a parent exactly while no name in use has more than one segment. */
  lemma FlatIffUndotted(ids: map<Path, ResId>, parent: Parents, next: ResId)
    requires NamesOk(ids, parent, next)
    ensures parent == map[] <==> forall p :: p in ids ==> |p| == 1
  {
    forall p | p in ids && |p| != 1 ensures parent != map[] {
      assert NameOk(ids, parent, p);
    }
    if parent != map[] {
      var c :| c in parent;
      assert NamedBelow(ids, c);
    }
  }

  lemma {:induction false} PathIsAbove(ids: map<Path, ResId>, parent: Parents, next: ResId, p: Path, q: Path)
    requires NamesOk(ids, parent, next) && p in ids && q in ids && p <= q
    ensures Above(parent, ids[p], ids[q])
    decreases |q|
  {
    if p == q {
      assert IsChain(parent, [ids[p]]);
    } else {
      var n := |q| - 1;
      assert NameOk(ids, parent, p) && NameOk(ids, parent, q);
      PathIsAbove(ids, parent, next, p, q[..n]);
      var c :| IsChain(parent, c) && c[0] == ids[q[..n]] && c[|c| - 1] == ids[p];
      var longer := [ids[q]] + c;
      assert IsChain(parent, longer);
      assert longer[|longer| - 1] == ids[p];
    }
  }

  lemma {:induction false} ChainIsPath(ids: map<Path, ResId>, parent: Parents, next: ResId, p: Path, q: Path,
                                           c: seq<ResId>)
    requires NamesOk(ids, parent, next) && p in ids && q in ids
    requires IsChain(parent, c) && c[0] == ids[q] && c[|c| - 1] == ids[p]
    ensures p <= q
    decreases |c|
  {
    if |c| > 1 {
      assert NameOk(ids, parent, q);
      assert IsChain(parent, c[1..]);
      ChainIsPath(ids, parent, next, p, q[..|q| - 1], c[1..]);
    }
  }

  /** The hierarchy of the lock manager is the hierarchy of the names: one resource is above another
      exactly when its path is a prefix. */
  lemma AboveIsPrefix(ids: map<Path, ResId>, parent: Parents, next: ResId, p: Path, q: Path)
    requires NamesOk(ids, parent, next) && p in ids && q in ids
    ensures Above(parent, ids[p], ids[q]) <==> p <= q
  {
    if Above(parent, ids[p], ids[q]) {
      var c :| IsChain(parent, c) && c[0] == ids[q] && c[|c| - 1] == ids[p];
      ChainIsPath(ids, parent, next, p, q, c);
    }
    if p <= q {
      PathIsAbove(ids, parent, next, p, q);
    }
  }

  // ---------------------------------------------------------------- growing

  ghost predicate NamesGrown(ids: map<Path, ResId>, ids': map<Path, ResId>) {
    forall p :: p in ids ==> p in ids' && ids'[p] == ids[p]
  }

  /** The resource that is created next gets a new name, under the resource its path says. */
  lemma NameCreated(ids: map<Path, ResId>, parent: Parents, id: ResId, path: Path, up: Parents)
    requires NamesOk(ids, parent, id) && 1 <= id && id !in parent && path !in ids && path != []
    requires if |path| == 1 then up == parent
             else path[..|path| - 1] in ids && up == parent[id := ids[path[..|path| - 1]]]
    ensures NamesOk(ids[path := id], up, id + 1)
  {
    var more := ids[path := id];
    forall p | p in more ensures NameOk(more, up, p) {
      if p != path {
        assert NameOk(ids, parent, p);
      }
    }
    forall c | c in up ensures NamedBelow(more, c) {
      if c == id {
        assert path in more && more[path] == c;
      } else {
        assert NamedBelow(ids, c);
        var p :| p in ids && ids[p] == c && |p| > 1;
        assert p in more && more[p] == c;
      }
    }
  }

  /** A new resource without a name and without a parent disturbs no name. */
  lemma NamesStay(ids: map<Path, ResId>, parent: Parents, next: ResId)
    requires NamesOk(ids, parent, next)
    ensures NamesOk(ids, parent, next + 1)
  {
    forall p | p in ids ensures NameOk(ids, parent, p) {
    }
  }

  ghost function PrefixesOf(p: Path): set<Path> {
    set k | 1 <= k <= |p| :: p[..k]
  }
}
