/**
 * separate_tagged_untagged_content.py: walk a problem-library directory tree
 * and sort every question file (a path containing ".pg") into the tagged or
 * the untagged list. Pointer files go into neither. Which list a file goes to
 * is decided by the first of its lines that holds the pointer marker or the
 * word KEYWORD.
 */
module TaggedUntagged {
  import opened PyStr

  const NoQuestion: string := "# This file is just a pointer to the file"
  const FilePostfix: string := ".pg"
  const Keyword: string := "KEYWORD"

  /** What the line loop decides about a question file. */
  datatype Kind = Pointer | Tagged | Untagged

  /** A line the loop stops at. */
  predicate IsMarker(line: string)
  {
    Contains(line, NoQuestion) || Contains(line, Keyword)
  }

  /** The line loop, read front to back: the first marker line decides, the pointer marker being tested first. */
  function Classify(contents: seq<string>): Kind
  {
    if contents == [] then Untagged
    else if Contains(contents[0], NoQuestion) then Pointer
    else if Contains(contents[0], Keyword) then Tagged
    else Classify(contents[1..])
  }

  /**
   * The first marker line alone decides: it gives Pointer when it holds the
   * pointer marker, even if it also holds KEYWORD, and Tagged otherwise.
   */
  lemma {:induction false} FirstMarkerDecides(contents: seq<string>, i: nat)
    requires i < |contents| && IsMarker(contents[i])
    requires forall j :: 0 <= j < i ==> !IsMarker(contents[j])
    ensures Classify(contents) == (if Contains(contents[i], NoQuestion) then Pointer else Tagged)
  {
    if i > 0 {
      FirstMarkerDecides(contents[1..], i - 1);
    }
  }

  /** A file is untagged exactly when none of its lines is a marker line. */
  lemma {:induction false} UntaggedIffNoMarker(contents: seq<string>)
    ensures Classify(contents) == Untagged <==> forall j :: 0 <= j < |contents| ==> !IsMarker(contents[j])
  {
    if contents != [] {
      UntaggedIffNoMarker(contents[1..]);
      if !IsMarker(contents[0]) {
        assert forall j :: 1 <= j < |contents| ==> contents[j] == contents[1..][j - 1];
      }
    }
  }

  /** Lines after a marker line are never read. */
  lemma {:induction false} LaterLinesIgnored(contents: seq<string>, rest: seq<string>, i: nat)
    requires i < |contents| && IsMarker(contents[i])
    ensures Classify(contents + rest) == Classify(contents)
  {
    if !IsMarker(contents[0]) {
      assert (contents + rest)[1..] == contents[1..] + rest;
      LaterLinesIgnored(contents[1..], rest, i - 1);
    }
  }

  /** The flag loop of `get_tagged_untagged_files` over one file's lines, with its early `break`s. */
  method ClassifyLines(contents: seq<string>) returns (pointerToFile: bool, taggedQuestion: bool)
    ensures pointerToFile <==> Classify(contents) == Pointer
    ensures taggedQuestion <==> Classify(contents) == Tagged
  {
    pointerToFile := false;
    taggedQuestion := false;
    for i := 0 to |contents|
      invariant Classify(contents[i..]) == Classify(contents)
    {
      var line := contents[i];
      if Contains(line, NoQuestion) {
        pointerToFile := true;
        break;
      }
      if Contains(line, Keyword) {
        taggedQuestion := true;
        break;
      }
      assert contents[i..][1..] == contents[i + 1..];
    }
  }

  /** An entry of a directory listing: a file with its lines, or a sub-directory with its own listing. */
  datatype Node = File(path: string, contents: seq<string>) | Dir(path: string, children: seq<Node>)

  /** How the walk ends: with both lists, or with IOError when a directory's path contains ".pg" and is opened as a file. */
  datatype Outcome = Lists(tagged: seq<string>, untagged: seq<string>) | IsADirectory(path: string)

  /** `get_tagged_untagged_files` over a listing, threading the two lists from left to right. */
  function Separate(nodes: seq<Node>, tagged: seq<string>, untagged: seq<string>): Outcome
    decreases nodes
  {
    if nodes == [] then Lists(tagged, untagged)
    else
      var node := nodes[0];
      if !Contains(node.path, FilePostfix) then
        if node.Dir? then
          match Separate(node.children, tagged, untagged)
          case Lists(t, u) => Separate(nodes[1..], t, u)
          case IsADirectory(p) => IsADirectory(p)
        else Separate(nodes[1..], tagged, untagged)
      else if node.Dir? then IsADirectory(node.path)
      else
        var kind := Classify(node.contents);
        Separate(nodes[1..],
          tagged + (if kind == Tagged then [node.path] else []),
          untagged + (if kind == Untagged then [node.path] else []))
  }

  /** The walk of `get_tagged_untagged_files` over one directory listing, recursing into sub-directories. */
  method GetTaggedUntaggedFiles(subfiles: seq<Node>, taggedProblems: seq<string>, untaggedProblems: seq<string>)
      returns (r: Outcome)
    ensures r == Separate(subfiles, taggedProblems, untaggedProblems)
    decreases subfiles
  {
    var tagged, untagged := taggedProblems, untaggedProblems;
    for i := 0 to |subfiles|
      invariant Separate(subfiles[i..], tagged, untagged) == Separate(subfiles, taggedProblems, untaggedProblems)
    {
      var filePath := subfiles[i];
      assert subfiles[i..][0] == filePath && subfiles[i..][1..] == subfiles[i + 1..];
      if !Contains(filePath.path, FilePostfix) {
        if filePath.Dir? {
          var sub := GetTaggedUntaggedFiles(filePath.children, tagged, untagged);
          if sub.IsADirectory? {
            return sub;
          }
          assert Separate(subfiles[i..], tagged, untagged) == Separate(subfiles[i + 1..], sub.tagged, sub.untagged);
          tagged, untagged := sub.tagged, sub.untagged;
        }
      } else if filePath.Dir? {
        return IsADirectory(filePath.path);
      } else {
        var pointerToFile, taggedQuestion := ClassifyLines(filePath.contents);
        ghost var kind := Classify(filePath.contents);
        assert Separate(subfiles[i..], tagged, untagged) == Separate(subfiles[i + 1..],
          tagged + (if kind == Tagged then [filePath.path] else []),
          untagged + (if kind == Untagged then [filePath.path] else []));
        if taggedQuestion {
          tagged := tagged + [filePath.path];
          assert untagged + [] == untagged;
        } else if !pointerToFile {
          untagged := untagged + [filePath.path];
          assert tagged + [] == tagged;
        } else {
          assert tagged + [] == tagged && untagged + [] == untagged;
        }
      }
    }
    assert subfiles[|subfiles|..] == [];
    return Lists(tagged, untagged);
  }

  /** A question file found by the walk. */
  datatype Question = Question(path: string, contents: seq<string>)

  /** The question files the walk reads, in visiting order: files whose path contains ".pg", reached through directories whose path does not. */
  function Questions(nodes: seq<Node>): seq<Question>
    decreases nodes
  {
    if nodes == [] then []
    else
      var node := nodes[0];
      var here :=
        if !Contains(node.path, FilePostfix) then (if node.Dir? then Questions(node.children) else [])
        else if node.File? then [Question(node.path, node.contents)]
        else [];
      here + Questions(nodes[1..])
  }

  /** The walk reaches a directory whose path contains ".pg". */
  predicate ReachesPgDirectory(nodes: seq<Node>)
    decreases nodes
  {
    nodes != [] &&
    var node := nodes[0];
    ((Contains(node.path, FilePostfix) && node.Dir?)
     || (!Contains(node.path, FilePostfix) && node.Dir? && ReachesPgDirectory(node.children))
     || ReachesPgDirectory(nodes[1..]))
  }

  /** The paths of the questions of one kind, in order. */
  function PathsOfKind(questions: seq<Question>, kind: Kind): seq<string>
  {
    if questions == [] then []
    else (if Classify(questions[0].contents) == kind then [questions[0].path] else []) + PathsOfKind(questions[1..], kind)
  }

  lemma {:induction false} PathsOfKindAppend(a: seq<Question>, b: seq<Question>, kind: Kind)
    ensures PathsOfKind(a + b, kind) == PathsOfKind(a, kind) + PathsOfKind(b, kind)
  {
    if a == [] {
      assert a + b == b;
    } else {
      assert (a + b)[0] == a[0] && (a + b)[1..] == a[1..] + b;
      PathsOfKindAppend(a[1..], b, kind);
      var head := if Classify(a[0].contents) == kind then [a[0].path] else [];
      assert head + (PathsOfKind(a[1..], kind) + PathsOfKind(b, kind))
        == (head + PathsOfKind(a[1..], kind)) + PathsOfKind(b, kind);
    }
  }

  /** The walk fails exactly when it reaches a directory whose path contains ".pg". */
  lemma {:induction false} SeparateFails(nodes: seq<Node>, tagged: seq<string>, untagged: seq<string>)
    ensures Separate(nodes, tagged, untagged).IsADirectory? <==> ReachesPgDirectory(nodes)
    decreases nodes
  {
    if nodes != [] {
      var node := nodes[0];
      if !Contains(node.path, FilePostfix) {
        if node.Dir? {
          SeparateFails(node.children, tagged, untagged);
          match Separate(node.children, tagged, untagged)
          case Lists(t, u) =>
            SeparateFails(nodes[1..], t, u);
          case IsADirectory(p) =>
        } else {
          SeparateFails(nodes[1..], tagged, untagged);
        }
      } else if node.File? {
        var kind := Classify(node.contents);
        SeparateFails(nodes[1..],
          tagged + (if kind == Tagged then [node.path] else []),
          untagged + (if kind == Untagged then [node.path] else []));
      }
    }
  }

  /**
   * Unless it fails, the walk keeps the lists it was given at the front and
   * appends the tagged and the untagged question files, in visiting order;
   * pointer files are appended nowhere.
   */
  lemma {:induction false} SeparateAppends(nodes: seq<Node>, tagged: seq<string>, untagged: seq<string>)
    requires !ReachesPgDirectory(nodes)
    ensures Separate(nodes, tagged, untagged) ==
      Lists(tagged + PathsOfKind(Questions(nodes), Tagged), untagged + PathsOfKind(Questions(nodes), Untagged))
    decreases nodes, 1
  {
    if nodes != [] {
      var node := nodes[0];
      var rest := Questions(nodes[1..]);
      assert !ReachesPgDirectory(nodes[1..]);
      if !Contains(node.path, FilePostfix) {
        if node.Dir? {
          DirAppends(nodes, tagged, untagged);
        } else {
          SeparateAppends(nodes[1..], tagged, untagged);
          assert Questions(nodes) == rest;
        }
      } else {
        var kind := Classify(node.contents);
        var q := Question(node.path, node.contents);
        SeparateAppends(nodes[1..],
          tagged + (if kind == Tagged then [node.path] else []),
          untagged + (if kind == Untagged then [node.path] else []));
        assert Questions(nodes) == [q] + rest;
        PathsOfKindAppend([q], rest, Tagged);
        PathsOfKindAppend([q], rest, Untagged);
        var ht := if kind == Tagged then [node.path] else [];
        var hu := if kind == Untagged then [node.path] else [];
        assert PathsOfKind([q], Tagged) == ht && PathsOfKind([q], Untagged) == hu;
        AppendAssoc(tagged, ht, PathsOfKind(rest, Tagged));
        AppendAssoc(untagged, hu, PathsOfKind(rest, Untagged));
      }
    }
  }

  /** The step of SeparateAppends for a sub-directory at the head of the listing. */
  lemma {:induction false} DirAppends(nodes: seq<Node>, tagged: seq<string>, untagged: seq<string>)
    requires nodes != [] && nodes[0].Dir? && !Contains(nodes[0].path, FilePostfix)
    requires !ReachesPgDirectory(nodes)
    ensures Separate(nodes, tagged, untagged) ==
      Lists(tagged + PathsOfKind(Questions(nodes), Tagged), untagged + PathsOfKind(Questions(nodes), Untagged))
    decreases nodes, 0
  {
    var node := nodes[0];
    var here, rest := Questions(node.children), Questions(nodes[1..]);
    var t, u := tagged + PathsOfKind(here, Tagged), untagged + PathsOfKind(here, Untagged);
    assert Separate(nodes, tagged, untagged) == Lists(t + PathsOfKind(rest, Tagged), u + PathsOfKind(rest, Untagged)) by {
      assert !ReachesPgDirectory(node.children) && !ReachesPgDirectory(nodes[1..]);
      SeparateAppends(node.children, tagged, untagged);
      assert Separate(nodes, tagged, untagged) == Separate(nodes[1..], t, u);
      SeparateAppends(nodes[1..], t, u);
    }
    assert PathsOfKind(Questions(nodes), Tagged) == PathsOfKind(here, Tagged) + PathsOfKind(rest, Tagged) by {
      assert Questions(nodes) == here + rest;
      PathsOfKindAppend(here, rest, Tagged);
    }
    assert PathsOfKind(Questions(nodes), Untagged) == PathsOfKind(here, Untagged) + PathsOfKind(rest, Untagged) by {
      assert Questions(nodes) == here + rest;
      PathsOfKindAppend(here, rest, Untagged);
    }
    AppendAssoc(tagged, PathsOfKind(here, Tagged), PathsOfKind(rest, Tagged));
    AppendAssoc(untagged, PathsOfKind(here, Untagged), PathsOfKind(rest, Untagged));
  }

  lemma AppendAssoc<T>(a: seq<T>, b: seq<T>, c: seq<T>)
    ensures (a + b) + c == a + (b + c)
  {
  }

  /** The paths of a list of questions. */
  function Paths(questions: seq<Question>): (r: seq<string>)
    ensures |r| == |questions|
    ensures forall i :: 0 <= i < |questions| ==> r[i] == questions[i].path
  {
    seq(|questions|, i requires 0 <= i < |questions| => questions[i].path)
  }

  lemma {:induction false} PathsOfKindAmong(questions: seq<Question>, kind: Kind)
    ensures forall p :: p in PathsOfKind(questions, kind) ==> p in Paths(questions)
  {
    if questions != [] {
      PathsOfKindAmong(questions[1..], kind);
    }
  }

  /**
   * When no two question files share a path, a question's path is in the
   * list of a kind exactly when the question is of that kind. So no file is
   * in both lists, and a pointer file is in neither.
   */
  lemma {:induction false} ListedIffKind(questions: seq<Question>, i: nat, kind: Kind)
    requires i < |questions|
    requires NoDuplicates(Paths(questions))
    ensures questions[i].path in PathsOfKind(questions, kind) <==> Classify(questions[i].contents) == kind
  {
    var tail := questions[1..];
    assert NoDuplicates(Paths(tail)) by {
      assert forall a :: 0 <= a < |tail| ==> Paths(tail)[a] == Paths(questions)[a + 1];
    }
    PathsOfKindAmong(tail, kind);
    if i == 0 {
      assert questions[0].path !in Paths(tail) by {
        assert forall a :: 0 <= a < |tail| ==> Paths(tail)[a] == Paths(questions)[a + 1];
      }
    } else {
      ListedIffKind(tail, i - 1, kind);
      if Classify(questions[0].contents) == kind {
        assert questions[0].path != questions[i].path by {
          assert Paths(questions)[0] != Paths(questions)[i];
        }
      }
    }
  }

  /** A path is a question path exactly when ".pg" occurs in it, anywhere: "a.pgx/b" qualifies, "a.p" does not. */
  lemma PostfixIsSubstring()
    ensures Contains("a.pgx/b", FilePostfix)
    ensures !Contains("a.p", FilePostfix)
  {
    assert OccursAt("a.pgx/b", FilePostfix, 1);
    ContainsOccurs("a.pgx/b", FilePostfix);
    assert !OccursAt("a.p", FilePostfix, 0) by {
      assert "a.p"[0] != FilePostfix[0];
    }
    ContainsOccurs("a.p", FilePostfix);
  }
}
