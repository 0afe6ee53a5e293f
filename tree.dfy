/** The source tree as the pipeline sees it through a directory listing,
    and the path filter applied to every listed entry. */
module Tree {
  import opened Paths

  /** What a directory listing reports about an entry. A directory carries
      its own listing; anything that is neither a regular file nor a
      directory (a symbolic link, a socket, ...) is Other. */
  datatype Kind = File | Dir(entries: seq<Entry>) | Other

  /** One entry of a listing; a listing is a seq<Entry> in listing order,
      which is whatever order the filesystem reports (not sorted). */
  datatype Entry = Entry(name: string, kind: Kind)

  /** The path filter: directories are always walked, every other entry
      passes only when its name ends in ".md". */
  predicate Accepted(e: Entry)
    ensures Accepted(e) <==> e.kind.Dir? || exists stem :: e.name == stem + MdExt
  {
    e.kind.Dir? || IsMdName(e.name)
  }

  /** An entry that both walks treat as a document. */
  predicate IsMdFile(e: Entry)
  {
    Accepted(e) && e.kind.File?
  }

  /** An entry that both walks descend into. */
  predicate IsDirEntry(e: Entry)
  {
    Accepted(e) && e.kind.Dir?
  }

  /** Keeps the elements satisfying p, in their original order. Written
      front to back, independently of the two walks, which build their
      results by appending at the back. */
  function Filter<T>(s: seq<T>, p: T -> bool): (r: seq<T>)
    ensures |r| <= |s|
    ensures forall k :: 0 <= k < |r| ==> r[k] in s && p(r[k])
    ensures forall k :: 0 <= k < |s| && p(s[k]) ==> s[k] in r
  {
    if s == [] then [] else (if p(s[0]) then [s[0]] else []) + Filter(s[1..], p)
  }

  lemma {:induction false} FilterSnoc<T>(s: seq<T>, x: T, p: T -> bool)
    ensures Filter(s + [x], p) == Filter(s, p) + (if p(x) then [x] else [])
  {
    if s == [] {
      assert s + [x] == [x];
    } else {
      assert (s + [x])[1..] == s[1..] + [x];
      FilterSnoc(s[1..], x, p);
    }
  }

  lemma {:induction false} FilterConcat<T>(a: seq<T>, b: seq<T>, p: T -> bool)
    ensures Filter(a + b, p) == Filter(a, p) + Filter(b, p)
  {
    if a == [] {
      assert a + b == b;
    } else {
      assert (a + b)[1..] == a[1..] + b;
      FilterConcat(a[1..], b, p);
    }
  }

  /** An element the predicate rejects can be dropped before filtering. */
  lemma FilterSkips<T>(a: seq<T>, o: T, b: seq<T>, p: T -> bool)
    requires !p(o)
    ensures Filter(a + [o] + b, p) == Filter(a + b, p)
  {
    assert Filter([o], p) == [];
    FilterConcat(a + [o], b, p);
    FilterConcat(a, [o], p);
    FilterConcat(a, b, p);
  }

  lemma {:induction false} FilterNone<T>(s: seq<T>, p: T -> bool)
    requires forall k :: 0 <= k < |s| ==> !p(s[k])
    ensures Filter(s, p) == []
  {
    if s != [] {
      FilterNone(s[1..], p);
    }
  }
}
