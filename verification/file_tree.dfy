/** A package as a tree of file wrappers, and the two generic directory
    operations the document codec is built from: decoding every regular file
    of a directory into a list, and writing a list as one file per element. */
module FileTree {
  import opened Wrappers
  import opened Basics
  import opened Sequences

  /** A `FileWrapper`: a regular file with its contents, or a directory
      mapping child names to wrappers. */
  datatype Tree = Blob(contents: Bytes) | Dir(entries: map<string, Tree>)

  /** The child directory `key` of `entries`, if there is one. */
  function SubDir(entries: map<string, Tree>, key: string): Option<map<string, Tree>> {
    if key in entries && entries[key].Dir? then Some(entries[key].entries) else None
  }

  /** The contents of the regular file `key` of `entries`, if there is one. */
  function RegularFile(entries: map<string, Tree>, key: string): Option<Bytes> {
    if key in entries && entries[key].Blob? then Some(entries[key].contents) else None
  }

  /** The children of directory `key`; a missing directory, or a regular file
      in its place, reads as an empty one. */
  function DirFiles(entries: map<string, Tree>, key: string): map<string, Tree> {
    SubDir(entries, key).GetOr(map[])
  }

  // ---------------------------------------------------------------------------
  // Enumeration order

  /** `order` lists every child name of `files` exactly once: one of the
      orders in which a Swift dictionary may be enumerated. */
  predicate IsEnumeration(order: seq<string>, files: map<string, Tree>) {
    && NoDuplicates(order)
    && (forall k :: k in order ==> k in files)
    && (forall k :: k in files ==> k in order)
  }

  /** Enumerating a dictionary: the order is unspecified, so each step takes
      any name not yet visited. */
  method Enumerate(files: map<string, Tree>) returns (order: seq<string>)
    ensures IsEnumeration(order, files)
    ensures |order| == |files|
  {
    order := [];
    var remaining := files.Keys;
    while remaining != {}
      invariant remaining <= files.Keys
      invariant NoDuplicates(order)
      invariant forall k :: k in order <==> k in files && k !in remaining
      invariant |order| + |remaining| == |files|
      decreases remaining
    {
      var k :| k in remaining;
      order := order + [k];
      remaining := remaining - {k};
    }
  }

  /** A list without duplicates holds each of its elements once. */
  lemma {:induction false} NoDuplicatesCount<T>(s: seq<T>, x: T)
    requires NoDuplicates(s)
    ensures multiset(s)[x] == if x in s then 1 else 0
  {
    if |s| > 0 {
      var p := s[..|s| - 1];
      assert s == p + [s[|s| - 1]];
      assert NoDuplicates(p);
      NoDuplicatesCount(p, x);
      assert s[|s| - 1] !in p;
    }
  }

  /** Any two enumerations of one directory are permutations of each other. */
  lemma EnumerationsArePermutations(o1: seq<string>, o2: seq<string>, files: map<string, Tree>)
    requires IsEnumeration(o1, files) && IsEnumeration(o2, files)
    ensures multiset(o1) == multiset(o2)
  {
    forall x
      ensures multiset(o1)[x] == multiset(o2)[x]
    {
      NoDuplicatesCount(o1, x);
      NoDuplicatesCount(o2, x);
    }
  }

  // ---------------------------------------------------------------------------
  // Decoding a directory

  /** Child `key` is a regular file that `decode` rejects. */
  predicate Rejects<T>(files: map<string, Tree>, key: string, decode: Bytes -> Option<T>) {
    key in files && files[key].Blob? && decode(files[key].contents).None?
  }

  /** What child `key` adds to the decoded list: its decoded value when it
      is a regular file that decodes, nothing otherwise. */
  function Contribution<T>(files: map<string, Tree>, key: string, decode: Bytes -> Option<T>): multiset<T> {
    if key in files && files[key].Blob? && decode(files[key].contents).Some?
    then multiset{decode(files[key].contents).value}
    else multiset{}
  }

  /** The contributions of the children listed in `order`. */
  function Contributions<T>(files: map<string, Tree>, order: seq<string>, decode: Bytes -> Option<T>): multiset<T> {
    if |order| == 0 then multiset{}
    else Contributions(files, order[..|order| - 1], decode) + Contribution(files, order[|order| - 1], decode)
  }

  /** `reduce(into:)` over the children in `order`: non-regular children are
      skipped, the others decoded and appended, and one failing decode makes
      the whole read fail. The decoded values are exactly the contributions. */
  function DecodeFiles<T>(files: map<string, Tree>, order: seq<string>, decode: Bytes -> Option<T>): (r: Option<seq<T>>)
    ensures r.None? <==> exists i :: 0 <= i < |order| && Rejects(files, order[i], decode)
  {
    if |order| == 0 then Some([])
    else
      var prefix, key := order[..|order| - 1], order[|order| - 1];
      assert forall i :: 0 <= i < |prefix| ==> prefix[i] == order[i];
      var head := DecodeFiles(files, prefix, decode);
      if head.None? then None
      else if !(key in files && files[key].Blob?) then head
      else
        var x := decode(files[key].contents);
        if x.None? then None else Some(head.value + [x.value])
  }

  /** The values a successful read yields are exactly the contributions of
      the children, each once. */
  lemma {:induction false} DecodeFilesYieldsContributions<T>(files: map<string, Tree>, order: seq<string>, decode: Bytes -> Option<T>)
    requires DecodeFiles(files, order, decode).Some?
    ensures multiset(DecodeFiles(files, order, decode).value) == Contributions(files, order, decode)
  {
    if |order| > 0 {
      var prefix, key := order[..|order| - 1], order[|order| - 1];
      DecodeFilesYieldsContributions(files, prefix, decode);
      var head := DecodeFiles(files, prefix, decode).value;
      if key in files && files[key].Blob? {
        var x := decode(files[key].contents).value;
        assert multiset(head + [x]) == multiset(head) + multiset{x};
      }
    }
  }

  /** Contributions add up over concatenation. */
  lemma {:induction false} ContributionsAppend<T>(files: map<string, Tree>, a: seq<string>, b: seq<string>, decode: Bytes -> Option<T>)
    ensures Contributions(files, a + b, decode) == Contributions(files, a, decode) + Contributions(files, b, decode)
  {
    if |b| == 0 {
      assert a + b == a;
    } else {
      var p := b[..|b| - 1];
      ContributionsAppend(files, a, p, decode);
      assert (a + b)[..|a + b| - 1] == a + p;
    }
  }

  /** The decoded multiset does not depend on the order of enumeration. */
  lemma {:induction false} ContributionsAreOrderFree<T>(files: map<string, Tree>, o1: seq<string>, o2: seq<string>, decode: Bytes -> Option<T>)
    requires multiset(o1) == multiset(o2)
    ensures Contributions(files, o1, decode) == Contributions(files, o2, decode)
    decreases |o1|
  {
    if |o1| == 0 {
      assert |o2| == |multiset(o2)| == 0;
    } else {
      var p, x := o1[..|o1| - 1], o1[|o1| - 1];
      assert x in o2 by {
        assert x in multiset(o1);
      }
      var j :| 0 <= j < |o2| && o2[j] == x;
      var before, after := o2[..j], o2[j + 1..];
      PermutationWithoutLast(o1, o2, j);
      ContributionsAreOrderFree(files, p, before + after, decode);
      assert o2 == before + [x] + after;
      ContributionsMoveToEnd(files, before, x, after, decode);
    }
  }

  /** Taking the last element off one permutation and the same element off
      the other leaves permutations. */
  lemma PermutationWithoutLast<T>(o1: seq<T>, o2: seq<T>, j: int)
    requires |o1| > 0 && multiset(o1) == multiset(o2)
    requires 0 <= j < |o2| && o2[j] == o1[|o1| - 1]
    ensures multiset(o1[..|o1| - 1]) == multiset(o2[..j] + o2[j + 1..])
  {
    var p, x := o1[..|o1| - 1], o1[|o1| - 1];
    var before, after := o2[..j], o2[j + 1..];
    var rest := before + after;
    assert o1 == p + [x];
    assert o2 == (before + [x]) + after;
    assert multiset(o2) == multiset(before) + multiset{x} + multiset(after);
    assert multiset(rest) == multiset(before) + multiset(after);
    assert multiset(p) + multiset{x} == multiset(rest) + multiset{x};
    forall y
      ensures multiset(p)[y] == multiset(rest)[y]
    {
      assert (multiset(p) + multiset{x})[y] == (multiset(rest) + multiset{x})[y];
    }
  }

  /** Moving one child to the end of the order does not change the
      contributions. */
  lemma ContributionsMoveToEnd<T>(files: map<string, Tree>, before: seq<string>, x: string, after: seq<string>,
                                  decode: Bytes -> Option<T>)
    ensures Contributions(files, before + [x] + after, decode) ==
            Contributions(files, before + after, decode) + Contribution(files, x, decode)
  {
    ContributionsAppend(files, before + [x], after, decode);
    ContributionsAppend(files, before, after, decode);
    assert (before + [x])[..|before + [x]| - 1] == before;
    var cb, cx, ca := Contributions(files, before, decode), Contribution(files, x, decode), Contributions(files, after, decode);
    assert Contributions(files, before + [x], decode) == cb + cx;
    MultisetSwap(cb, cx, ca);
  }

  lemma MultisetSwap<T>(a: multiset<T>, b: multiset<T>, c: multiset<T>)
    ensures a + b + c == a + c + b
  {
  }

  /** Decoding succeeds or fails alike for every enumeration of one directory,
      and yields the same values up to order. */
  lemma DecodeIsOrderFree<T>(files: map<string, Tree>, o1: seq<string>, o2: seq<string>, decode: Bytes -> Option<T>)
    requires IsEnumeration(o1, files) && IsEnumeration(o2, files)
    ensures DecodeFiles(files, o1, decode).Some? <==> DecodeFiles(files, o2, decode).Some?
    ensures DecodeFiles(files, o1, decode).Some? ==>
      multiset(DecodeFiles(files, o1, decode).value) == multiset(DecodeFiles(files, o2, decode).value)
  {
    EnumerationsArePermutations(o1, o2, files);
    ContributionsAreOrderFree(files, o1, o2, decode);
    if DecodeFiles(files, o1, decode).Some? && DecodeFiles(files, o2, decode).Some? {
      DecodeFilesYieldsContributions(files, o1, decode);
      DecodeFilesYieldsContributions(files, o2, decode);
    }
    if exists i :: 0 <= i < |o1| && Rejects(files, o1[i], decode) {
      var i :| 0 <= i < |o1| && Rejects(files, o1[i], decode);
      assert o1[i] in o2;
    }
    if exists i :: 0 <= i < |o2| && Rejects(files, o2[i], decode) {
      var i :| 0 <= i < |o2| && Rejects(files, o2[i], decode);
      assert o2[i] in o1;
    }
  }

  // ---------------------------------------------------------------------------
  // Writing a list as one file per element

  /** Element `i` is the last one written under its file name. */
  predicate IsLastNamed<T>(xs: seq<T>, fileName: T -> string, i: int)
    requires 0 <= i < |xs|
  {
    forall j :: i < j < |xs| ==> fileName(xs[j]) != fileName(xs[i])
  }

  /** The loop that fills a dictionary with one regular file per element,
      named by `fileName`: a later element overwrites an earlier one of the
      same name. */
  function EntityFiles<T>(xs: seq<T>, fileName: T -> string, encode: T -> Bytes): (r: map<string, Tree>)
    ensures forall k :: k in r <==> exists i :: 0 <= i < |xs| && fileName(xs[i]) == k
  {
    if |xs| == 0 then map[]
    else
      var p, x := xs[..|xs| - 1], xs[|xs| - 1];
      assert forall i :: 0 <= i < |p| ==> p[i] == xs[i];
      EntityFiles(p, fileName, encode)[fileName(x) := Blob(encode(x))]
  }

  /** The file written under a name holds the last element of that name. */
  lemma {:induction false} LastWriteWins<T>(xs: seq<T>, fileName: T -> string, encode: T -> Bytes, i: int)
    requires 0 <= i < |xs| && IsLastNamed(xs, fileName, i)
    ensures EntityFiles(xs, fileName, encode)[fileName(xs[i])] == Blob(encode(xs[i]))
  {
    var p, x := xs[..|xs| - 1], xs[|xs| - 1];
    if i < |xs| - 1 {
      assert p[i] == xs[i];
      assert IsLastNamed(p, fileName, i) by {
        forall j | i < j < |p|
          ensures fileName(p[j]) != fileName(p[i])
        {
          assert p[j] == xs[j];
        }
      }
      LastWriteWins(p, fileName, encode, i);
    }
  }

  /** The file names of `xs`, in order. */
  function Names<T>(xs: seq<T>, fileName: T -> string): (r: seq<string>)
    ensures |r| == |xs| && forall i :: 0 <= i < |xs| ==> r[i] == fileName(xs[i])
  {
    seq(|xs|, i requires 0 <= i < |xs| => fileName(xs[i]))
  }

  /** Reading back a directory of files written from `xs` under distinct
      names, with a decoder that inverts the encoder, succeeds in every
      enumeration order and yields exactly the elements of `xs`. */
  lemma DecodeWrittenFiles<T>(xs: seq<T>, fileName: T -> string, encode: T -> Bytes,
                              decode: Bytes -> Option<T>, order: seq<string>)
    requires forall x :: decode(encode(x)) == Some(x)
    requires NoDuplicates(Names(xs, fileName))
    requires IsEnumeration(order, EntityFiles(xs, fileName, encode))
    ensures DecodeFiles(EntityFiles(xs, fileName, encode), order, decode).Some?
    ensures multiset(DecodeFiles(EntityFiles(xs, fileName, encode), order, decode).value) == multiset(xs)
  {
    var files, names := EntityFiles(xs, fileName, encode), Names(xs, fileName);
    forall i | 0 <= i < |xs|
      ensures files[names[i]] == Blob(encode(xs[i]))
    {
      assert IsLastNamed(xs, fileName, i) by {
        forall j | i < j < |xs| ensures fileName(xs[j]) != fileName(xs[i]) {
          assert names[i] != names[j];
        }
      }
      LastWriteWins(xs, fileName, encode, i);
    }
    forall i | 0 <= i < |order|
      ensures !Rejects(files, order[i], decode)
    {
      var k := order[i];
      assert k in files;
      var n :| 0 <= n < |xs| && fileName(xs[n]) == k;
      assert files[k] == Blob(encode(xs[n]));
    }
    assert IsEnumeration(names, files);
    WrittenContributions(xs, fileName, encode, decode, files, |xs|);
    assert names[..|xs|] == names;
    assert xs[..|xs|] == xs;
    EnumerationsArePermutations(order, names, files);
    ContributionsAreOrderFree(files, order, names, decode);
    DecodeFilesYieldsContributions(files, order, decode);
  }

  lemma {:induction false} WrittenContributions<T>(xs: seq<T>, fileName: T -> string, encode: T -> Bytes,
                                                   decode: Bytes -> Option<T>, files: map<string, Tree>, n: nat)
    requires forall x :: decode(encode(x)) == Some(x)
    requires n <= |xs|
    requires forall i :: 0 <= i < |xs| ==> fileName(xs[i]) in files && files[fileName(xs[i])] == Blob(encode(xs[i]))
    ensures Contributions(files, Names(xs, fileName)[..n], decode) == multiset(xs[..n])
  {
    if n > 0 {
      WrittenContributions(xs, fileName, encode, decode, files, n - 1);
      var names := Names(xs, fileName);
      var x := xs[n - 1];
      assert names[..n][..n - 1] == names[..n - 1];
      assert names[..n][n - 1] == fileName(x);
      assert Contribution(files, fileName(x), decode) == multiset{x} by {
        assert files[fileName(x)] == Blob(encode(x));
      }
      assert Contributions(files, names[..n], decode) ==
             Contributions(files, names[..n - 1], decode) + Contribution(files, fileName(x), decode);
      assert xs[..n] == xs[..n - 1] + [x];
      assert multiset(xs[..n]) == multiset(xs[..n - 1]) + multiset{x};
    }
  }
}
