/** Candidate discovery: which directory entries are scanned, and the
    path each one is read from. */
module Candidates {

  /** The suffixes, already lower-cased, that mark a name as an image. */
  const ImageExtensions: seq<string> := [".png", ".jpg", ".jpeg"]

  /** Lower-casing of one character. Only ASCII letters change: no other
      character lower-cases to '.', 'p', 'n', 'g', 'j' or 'e', so for the
      suffix test below this agrees with full Unicode lower-casing. */
  function LowerChar(c: char): char
  {
    if 'A' <= c <= 'Z' then (c as int + 32) as char else c
  }

  /** Lower-casing of a string, character by character. */
  function Lower(s: string): (r: string)
    ensures |r| == |s|
  {
    if s == [] then [] else [LowerChar(s[0])] + Lower(s[1..])
  }

  /** Each character of the lower-cased string is its own character
      lower-cased, and no upper-case ASCII letter is left. */
  lemma {:induction false} LowerAt(s: string, i: nat)
    requires i < |s|
    ensures Lower(s)[i] == LowerChar(s[i])
    ensures !('A' <= Lower(s)[i] <= 'Z')
  {
    if i > 0 {
      LowerAt(s[1..], i - 1);
    }
  }

  predicate EndsWith(s: string, suffix: string)
  {
    |suffix| <= |s| && s[|s| - |suffix|..] == suffix
  }

  lemma EndsWithAppend(a: string, b: string)
    ensures EndsWith(a + b, b)
  {
    assert (a + b)[|a|..] == b;
  }

  /** The name's lower-cased form ends in one of the image extensions. */
  predicate HasImageExtension(name: string): (r: bool)
    ensures r ==> 4 <= |name|
  {
    var l := Lower(name);
    EndsWith(l, ".png") || EndsWith(l, ".jpg") || EndsWith(l, ".jpeg")
  }

  /** The entries of a directory listing that are scanned, in listing order. */
  function ImageFiles(names: seq<string>): (r: seq<string>)
    ensures |r| <= |names|
  {
    if names == [] then []
    else (if HasImageExtension(names[0]) then [names[0]] else []) + ImageFiles(names[1..])
  }

  /** Joining a directory and a file name by the POSIX path rules: an
      absolute name replaces the directory, and one separator is inserted
      unless the directory is empty or already ends in one. */
  function Join(directory: string, name: string): (r: string)
    ensures |name| <= |r| <= |directory| + 1 + |name|
  {
    if |name| > 0 && name[0] == '/' then name
    else if directory == [] || directory[|directory| - 1] == '/' then directory + name
    else directory + "/" + name
  }

  lemma {:induction false} LowerAppend(a: string, b: string)
    ensures Lower(a + b) == Lower(a) + Lower(b)
  {
    if a != [] {
      assert (a + b)[0] == a[0];
      assert (a + b)[1..] == a[1..] + b;
      LowerAppend(a[1..], b);
    } else {
      assert a + b == b;
    }
  }

  /** Any stem followed by one of the extensions, in any letter case, is an image name. */
  lemma ExtensionOfAnyStem(stem: string, ext: string)
    requires Lower(ext) in ImageExtensions
    ensures HasImageExtension(stem + ext)
  {
    LowerAppend(stem, ext);
    EndsWithAppend(Lower(stem), Lower(ext));
  }

  /** Conversely, every image name is a stem followed by an extension in some letter case. */
  lemma SplitImageName(name: string) returns (stem: string, ext: string)
    requires HasImageExtension(name)
    ensures name == stem + ext
    ensures Lower(ext) in ImageExtensions
  {
    var l := Lower(name);
    var n := if EndsWith(l, ".png") || EndsWith(l, ".jpg") then 4 else 5;
    stem, ext := name[..|name| - n], name[|name| - n..];
    assert name == stem + ext;
    LowerAppend(stem, ext);
    assert Lower(ext) == l[|name| - n..];
  }

  /** Every candidate has an image extension. */
  lemma {:induction false} ImageFilesHaveExtension(names: seq<string>)
    ensures forall k :: 0 <= k < |ImageFiles(names)| ==> HasImageExtension(ImageFiles(names)[k])
  {
    if names != [] {
      ImageFilesHaveExtension(names[1..]);
      var head := if HasImageExtension(names[0]) then [names[0]] else [];
      assert ImageFiles(names) == head + ImageFiles(names[1..]);
    }
  }

  /** A name is a candidate exactly when it is listed and has an image extension. */
  lemma {:induction false} ImageFilesMembership(names: seq<string>, x: string)
    ensures x in ImageFiles(names) <==> x in names && HasImageExtension(x)
  {
    if names != [] {
      ImageFilesMembership(names[1..], x);
      assert names == [names[0]] + names[1..];
    }
  }

  /** Filtering distributes over concatenation: the order of the listing is kept. */
  lemma {:induction false} ImageFilesAppend(a: seq<string>, b: seq<string>)
    ensures ImageFiles(a + b) == ImageFiles(a) + ImageFiles(b)
  {
    if a == [] {
      assert a + b == b;
    } else {
      var head := if HasImageExtension(a[0]) then [a[0]] else [];
      assert (a + b)[0] == a[0];
      assert (a + b)[1..] == a[1..] + b;
      assert ImageFiles(a + b) == head + ImageFiles(a[1..] + b);
      ImageFilesAppend(a[1..], b);
      assert head + (ImageFiles(a[1..]) + ImageFiles(b)) == (head + ImageFiles(a[1..])) + ImageFiles(b);
    }
  }

  /** Each name occurs in the candidate list as often as in the listing if
      it has an image extension, and not at all otherwise. */
  lemma {:induction false} ImageFilesMultiplicity(names: seq<string>, x: string)
    ensures multiset(ImageFiles(names))[x] == if HasImageExtension(x) then multiset(names)[x] else 0
  {
    if names != [] {
      var rest := names[1..];
      ImageFilesMultiplicity(rest, x);
      assert names == [names[0]] + rest;
      assert multiset(names)[x] == multiset([names[0]])[x] + multiset(rest)[x];
      if HasImageExtension(names[0]) {
        assert ImageFiles(names) == [names[0]] + ImageFiles(rest);
        assert multiset(ImageFiles(names))[x] == multiset([names[0]])[x] + multiset(ImageFiles(rest))[x];
      } else {
        assert ImageFiles(names) == ImageFiles(rest);
        assert x == names[0] ==> !HasImageExtension(x);
      }
    }
  }

  /** Filtering the candidate list again keeps every entry, so the second
      extension test inside the scan loop always passes. */
  lemma {:induction false} ImageFilesIdempotent(names: seq<string>)
    ensures ImageFiles(ImageFiles(names)) == ImageFiles(names)
  {
    if names != [] {
      ImageFilesIdempotent(names[1..]);
      var head := if HasImageExtension(names[0]) then [names[0]] else [];
      ImageFilesAppend(head, ImageFiles(names[1..]));
      if head != [] {
        assert ImageFiles(head) == head by {
          assert head[1..] == [];
        }
      }
    }
  }

  /** A joined path ends with the name. A relative name comes after the
      directory, with one separator between them unless the directory is
      empty or already ends in one. */
  lemma JoinShape(directory: string, name: string)
    ensures EndsWith(Join(directory, name), name)
    ensures (name == [] || name[0] != '/') ==>
      |directory| <= |Join(directory, name)| && Join(directory, name)[..|directory|] == directory
    ensures (name == [] || name[0] != '/') && directory != [] && directory[|directory| - 1] != '/' ==>
      Join(directory, name) == directory + "/" + name
  {
    if name == [] || name[0] != '/' {
      if directory == [] || directory[|directory| - 1] == '/' {
        EndsWithAppend(directory, name);
      } else {
        EndsWithAppend(directory + "/", name);
      }
    }
  }

  /** Two names that are not absolute join with one directory to different
      paths, so each result path identifies its candidate. */
  lemma JoinInjective(directory: string, a: string, b: string)
    requires a == [] || a[0] != '/'
    requires b == [] || b[0] != '/'
    requires Join(directory, a) == Join(directory, b)
    ensures a == b
  {
    var p := Join(directory, a);
    JoinShape(directory, a);
    JoinShape(directory, b);
    if directory == [] || directory[|directory| - 1] == '/' {
      assert p == directory + a && p == directory + b;
      assert a == p[|directory|..] == b;
    } else {
      assert p == directory + "/" + a && p == directory + "/" + b;
      assert a == p[|directory| + 1..] == b;
    }
  }
}
