/** The pure parts of loading topic config files: which YAML documents count as empty,
    the loop that parses the others, and the check that a topic's metadata agrees with
    its cluster. */
module ConfigLoad {
  import opened Wrappers
  import opened Text

  // ---------------------------------------------------------------------------
  // Empty documents

  /** A line that says nothing: blank once trimmed, or a comment. */
  predicate Ignorable(line: string)
  {
    var t := TrimSpace(line);
    |t| == 0 || t[0] == '#'
  }

  /** The same, read off the line itself: all white space, or its first character that
      is not white space is '#'. */
  predicate IgnorableByFirstChar(line: string)
  {
    LeadingSpaces(line) == |line| || line[LeadingSpaces(line)] == '#'
  }

  lemma IgnorableIff(line: string)
    ensures Ignorable(line) <==> IgnorableByFirstChar(line)
  {
    var n := LeadingSpaces(line);
    var t := TrimSpace(line);
    if n == |line| {
      assert forall k :: 0 <= k < |line| ==> IsSpace(line[k]);
    } else {
      assert !IsSpace(line[n]);
      assert t != [];
      assert t[0] == line[n];
    }
  }

  /** `isEmpty`: every "\n"-separated line of the document is ignorable. */
  predicate Empty(contents: string)
  {
    var lines := Split(contents, '\n');
    forall k :: 0 <= k < |lines| ==> Ignorable(lines[k])
  }

  /** The scan of `isEmpty`, which stops at the first line that is neither blank nor a
      comment. */
  method IsEmpty(contents: string) returns (empty: bool)
    ensures empty <==> Empty(contents)
  {
    var lines := Split(contents, '\n');
    var i := 0;
    while i < |lines|
      invariant i <= |lines|
      invariant forall k :: 0 <= k < i ==> Ignorable(lines[k])
    {
      if Blocks(lines[i]) {
        return false;
      }
      IgnorableExtend(lines, i);
      i := i + 1;
    }
    return true;
  }

  lemma IgnorableExtend(lines: seq<string>, i: nat)
    requires i < |lines| && Ignorable(lines[i])
    requires forall k :: 0 <= k < i ==> Ignorable(lines[k])
    ensures forall k :: 0 <= k < i + 1 ==> Ignorable(lines[k])
  {
  }

  /** The test the scan applies to each line: something other than a comment is left
      once the line is trimmed. */
  function Blocks(line: string): (b: bool)
    ensures b <==> !Ignorable(line)
  {
    var trimmed := TrimSpace(line);
    |trimmed| > 0 && !HasPrefix(trimmed, "#")
  }

  /** The empty text splits into one empty line and so is empty. */
  lemma EmptyText()
    ensures Empty("")
  {
    assert Split("", '\n') == [""];
  }

  /** A document made only of white space is empty, and one that starts with a character
      that is neither white space nor '#' is not. */
  lemma EmptyBounds(contents: string)
    ensures (forall k :: 0 <= k < |contents| ==> IsSpace(contents[k])) ==> Empty(contents)
    ensures |contents| > 0 && !IsSpace(contents[0]) && contents[0] != '#' ==> !Empty(contents)
  {
    var lines := Split(contents, '\n');
    if forall k :: 0 <= k < |contents| ==> IsSpace(contents[k]) {
      forall i | 0 <= i < |lines|
        ensures Ignorable(lines[i])
      {
        JoinedPartSpaces(lines, i);
      }
    }
    if |contents| > 0 && !IsSpace(contents[0]) && contents[0] != '#' {
      assert contents[0] != '\n';
      FirstPartStarts(lines);
      assert lines[0] != [] && lines[0][0] == contents[0];
      IgnorableIff(lines[0]);
      assert LeadingSpaces(lines[0]) == 0;
    }
  }

  /** A part of a joined text consists of characters of that text. */
  lemma {:induction false} JoinedPartSpaces(parts: seq<string>, i: nat)
    requires i < |parts|
    requires forall k :: 0 <= k < |Join("\n", parts)| ==> IsSpace(Join("\n", parts)[k])
    ensures forall k :: 0 <= k < |parts[i]| ==> IsSpace(parts[i][k])
  {
    var joined := Join("\n", parts);
    if |parts| > 1 {
      assert joined == parts[0] + "\n" + Join("\n", parts[1..]);
      if i == 0 {
        forall k | 0 <= k < |parts[0]|
          ensures IsSpace(parts[0][k])
        {
          assert joined[k] == parts[0][k];
        }
      } else {
        var rest := Join("\n", parts[1..]);
        forall k | 0 <= k < |rest|
          ensures IsSpace(rest[k])
        {
          assert joined[|parts[0]| + 1 + k] == rest[k];
        }
        JoinedPartSpaces(parts[1..], i - 1);
      }
    }
  }

  /** The first part of a joined text starts the text, when the text does not start with
      the separator. */
  lemma FirstPartStarts(parts: seq<string>)
    requires |parts| >= 1
    requires var joined := Join("\n", parts); |joined| > 0 && joined[0] != '\n'
    ensures parts[0] != [] && parts[0][0] == Join("\n", parts)[0]
  {
    if |parts| > 1 {
      assert Join("\n", parts) == parts[0] + "\n" + Join("\n", parts[1..]);
    }
  }

  // ---------------------------------------------------------------------------
  // The document loop

  /** The documents that are parsed, in order: each split piece trimmed, the empty ones
      left out. */
  function Kept(pieces: seq<string>): (docs: seq<string>)
    ensures |docs| <= |pieces|
    ensures forall k :: 0 <= k < |docs| ==> !Empty(docs[k])
  {
    if pieces == [] then []
    else
      var doc := TrimSpace(pieces[|pieces| - 1]);
      Kept(pieces[..|pieces| - 1]) + (if Empty(doc) then [] else [doc])
  }

  /** What one piece contributes: its trim, unless that is an empty document. */
  function DocOf(piece: string): seq<string>
  {
    var doc := TrimSpace(piece);
    if Empty(doc) then [] else [doc]
  }

  /** The contributions of `xs` one after the other, read from the front. */
  function ConcatMap<T, U>(xs: seq<T>, f: T -> seq<U>): seq<U>
  {
    if xs == [] then [] else f(xs[0]) + ConcatMap(xs[1..], f)
  }

  lemma {:induction false} ConcatLast<T, U>(xs: seq<T>, f: T -> seq<U>)
    requires xs != []
    ensures ConcatMap(xs, f) == ConcatMap(xs[..|xs| - 1], f) + f(xs[|xs| - 1])
  {
    var n := |xs| - 1;
    if n == 0 {
      assert xs[..n] == [] && xs[1..] == [];
    } else {
      ConcatLast(xs[1..], f);
      assert xs[1..][..n - 1] == xs[..n][1..];
      assert xs[..n][0] == xs[0];
    }
  }

  lemma {:induction false} ConcatMembers<T, U>(xs: seq<T>, f: T -> seq<U>, u: U)
    ensures u in ConcatMap(xs, f) <==> exists j :: 0 <= j < |xs| && u in f(xs[j])
  {
    if xs != [] {
      ConcatMembers(xs[1..], f, u);
      if exists j :: 0 <= j < |xs| && u in f(xs[j]) {
        var j :| 0 <= j < |xs| && u in f(xs[j]);
        if j > 0 {
          assert xs[1..][j - 1] == xs[j];
        }
      }
      if exists j :: 0 <= j < |xs| - 1 && u in f(xs[1..][j]) {
        var j :| 0 <= j < |xs| - 1 && u in f(xs[1..][j]);
        assert xs[j + 1] == xs[1..][j];
      }
    }
  }

  /** Keeping documents from the back and from the front agree: the kept documents are
      the trimmed non-empty pieces, each once, in the order of the pieces. */
  lemma {:induction false} KeptInOrder(pieces: seq<string>)
    ensures Kept(pieces) == ConcatMap(pieces, DocOf)
  {
    if pieces != [] {
      KeptInOrder(pieces[..|pieces| - 1]);
      ConcatLast(pieces, DocOf);
    }
  }

  /** A text is among the kept documents exactly when it is the non-empty trim of some
      piece. */
  lemma KeptMembers(pieces: seq<string>, doc: string)
    ensures doc in Kept(pieces) <==>
            !Empty(doc) && exists j :: 0 <= j < |pieces| && doc == TrimSpace(pieces[j])
  {
    KeptInOrder(pieces);
    ConcatMembers(pieces, DocOf, doc);
    if doc in Kept(pieces) {
      var j :| 0 <= j < |pieces| && doc in DocOf(pieces[j]);
      DocOfMembers(pieces[j], doc);
    }
    if !Empty(doc) && exists j :: 0 <= j < |pieces| && doc == TrimSpace(pieces[j]) {
      var j :| 0 <= j < |pieces| && doc == TrimSpace(pieces[j]);
      DocOfMembers(pieces[j], doc);
    }
  }

  lemma DocOfMembers(piece: string, doc: string)
    ensures doc in DocOf(piece) <==> !Empty(doc) && doc == TrimSpace(piece)
  {
  }

  /** The documents kept from a prefix of the pieces come first among all kept ones. */
  lemma {:induction false} KeptPrefix(pieces: seq<string>, i: nat)
    requires i <= |pieces|
    ensures |Kept(pieces[..i])| <= |Kept(pieces)|
    ensures Kept(pieces[..i]) == Kept(pieces)[..|Kept(pieces[..i])|]
    decreases |pieces| - i
  {
    if i < |pieces| {
      KeptPrefix(pieces, i + 1);
      var shorter := pieces[..i + 1];
      assert shorter[..|shorter| - 1] == pieces[..i];
      var a, b := Kept(pieces[..i]), Kept(shorter);
      assert b[..|a|] == a;
    } else {
      assert pieces[..i] == pieces;
    }
  }

  /** The position among `docs` of the first document that does not parse, or the
      number of documents when all parse. */
  function FirstParseFailure<T>(docs: seq<string>, parse: string -> Result<T, string>): (k: nat)
    ensures k <= |docs|
    ensures forall j :: 0 <= j < k ==> parse(docs[j]).Success?
    ensures k < |docs| ==> parse(docs[k]).Failure?
  {
    if docs == [] then 0
    else
      var n := |docs| - 1;
      var k := FirstParseFailure(docs[..n], parse);
      if k < n then k else if parse(docs[n]).Failure? then n else |docs|
  }

  /** `values` are the parsed documents, one for each in order. */
  ghost predicate ParsedAll<T>(docs: seq<string>, parse: string -> Result<T, string>, values: seq<T>)
  {
    && |values| == |docs|
    && forall k :: 0 <= k < |docs| ==> parse(docs[k]).Success? && values[k] == parse(docs[k]).value
  }

  /** The documents parsed one after the other: the values of all of them, or the error
      of the first one that does not parse. */
  function ParseDocs<T>(docs: seq<string>, parse: string -> Result<T, string>): Result<seq<T>, string>
  {
    if docs == [] then Success([])
    else
      var n := |docs| - 1;
      match ParseDocs(docs[..n], parse)
      case Failure(e) => Failure(e)
      case Success(values) =>
        var parsed := parse(docs[n]);
        if parsed.Failure? then Failure(parsed.error) else Success(values + [parsed.value])
  }

  /** Parsing succeeds exactly when every document parses, with their values in order;
      otherwise it fails with the error of the first document that does not parse. */
  lemma {:induction false} ParseDocsMeaning<T>(docs: seq<string>, parse: string -> Result<T, string>)
    ensures var r := ParseDocs(docs, parse);
            && (r.Success? <==> FirstParseFailure(docs, parse) == |docs|)
            && (r.Failure? ==> r.error == parse(docs[FirstParseFailure(docs, parse)]).error)
            && (r.Success? ==> ParsedAll(docs, parse, r.value))
  {
    if docs != [] {
      var n := |docs| - 1;
      var prefix := docs[..n];
      ParseDocsMeaning(prefix, parse);
      assert prefix + [docs[n]] == docs;
      var k := FirstParseFailure(prefix, parse);
      if k < n {
        assert prefix[k] == docs[k];
      } else if parse(docs[n]).Success? {
        ParsedAppend(prefix, parse, ParseDocs(prefix, parse).value, docs[n]);
      }
    }
  }

  lemma ParsedAppend<T>(docs: seq<string>, parse: string -> Result<T, string>, values: seq<T>, doc: string)
    requires ParsedAll(docs, parse, values) && parse(doc).Success?
    ensures ParsedAll(docs + [doc], parse, values + [parse(doc).value])
  {
    var docs', values' := docs + [doc], values + [parse(doc).value];
    forall k | 0 <= k < |docs'|
      ensures parse(docs'[k]).Success? && values'[k] == parse(docs'[k]).value
    {
      if k < |docs| {
        assert docs'[k] == docs[k] && values'[k] == values[k];
      }
    }
  }

  /** Once a document fails, later documents do not change the outcome. */
  lemma {:induction false} FailureStays<T>(docs: seq<string>, more: seq<string>, parse: string -> Result<T, string>)
    requires ParseDocs(docs, parse).Failure?
    ensures ParseDocs(docs + more, parse) == ParseDocs(docs, parse)
  {
    if more == [] {
      assert docs + more == docs;
    } else {
      var m := |more| - 1;
      FailureStays(docs, more[..m], parse);
      assert (docs + more)[..|docs + more| - 1] == docs + more[..m];
    }
  }

  /** The loop of `LoadTopicsFile` after the whole file is trimmed and split: each piece
      is trimmed, empty ones are skipped, the others are parsed in order, and the first
      parse error is returned instead of any result. The YAML separator `split` and the
      decoder `parse` are parameters. */
  method LoadTopics<T>(contents: string, split: string -> seq<string>, parse: string -> Result<T, string>)
    returns (r: Result<seq<T>, string>)
    ensures r == ParseDocs(Kept(split(TrimSpace(contents))), parse)
  {
    var pieces := split(TrimSpace(contents));
    var configs: seq<T> := [];
    var i := 0;
    while i < |pieces|
      invariant i <= |pieces|
      invariant ParseDocs(Kept(pieces[..i]), parse) == Success(configs)
    {
      var doc := TrimSpace(pieces[i]);
      var empty := IsEmpty(doc);
      LoadStep(pieces, parse, i, configs);
      if !empty {
        var parsed := parse(doc);
        if parsed.Failure? {
          FailureAfter(pieces, parse, i);
          return Failure(parsed.error);
        }
        configs := configs + [parsed.value];
      }
      i := i + 1;
    }
    assert pieces[..i] == pieces;
    r := Success(configs);
  }

  /** One turn of the loop: an empty piece leaves the outcome so far as it is, and a
      document that parses adds its value. */
  lemma LoadStep<T>(pieces: seq<string>, parse: string -> Result<T, string>, i: nat, values: seq<T>)
    requires i < |pieces| && ParseDocs(Kept(pieces[..i]), parse) == Success(values)
    ensures var doc := TrimSpace(pieces[i]);
            && (Empty(doc) ==> ParseDocs(Kept(pieces[..i + 1]), parse) == Success(values))
            && (!Empty(doc) && parse(doc).Success? ==>
                  ParseDocs(Kept(pieces[..i + 1]), parse) == Success(values + [parse(doc).value]))
  {
    var doc := TrimSpace(pieces[i]);
    KeptStep(pieces, i);
    if Empty(doc) {
      assert Kept(pieces[..i + 1]) == Kept(pieces[..i]);
    } else {
      ParseDocsStep(Kept(pieces[..i]), doc, parse);
    }
  }

  /** Parsing one more document: an earlier failure stays, otherwise the document's own
      error or value is added. */
  lemma ParseDocsStep<T>(docs: seq<string>, doc: string, parse: string -> Result<T, string>)
    ensures ParseDocs(docs, parse).Failure? ==> ParseDocs(docs + [doc], parse) == ParseDocs(docs, parse)
    ensures ParseDocs(docs, parse).Success? && parse(doc).Failure? ==>
              ParseDocs(docs + [doc], parse) == Failure(parse(doc).error)
    ensures ParseDocs(docs, parse).Success? && parse(doc).Success? ==>
              ParseDocs(docs + [doc], parse) == Success(ParseDocs(docs, parse).value + [parse(doc).value])
  {
    assert (docs + [doc])[..|docs|] == docs;
  }

  lemma KeptStep(pieces: seq<string>, i: nat)
    requires i < |pieces|
    ensures var doc := TrimSpace(pieces[i]);
            Kept(pieces[..i + 1]) == Kept(pieces[..i]) + (if Empty(doc) then [] else [doc])
  {
    assert pieces[..i + 1][..i] == pieces[..i];
  }

  /** A document that fails to parse after all earlier kept ones parsed decides the
      outcome for the whole file. */
  lemma FailureAfter<T>(pieces: seq<string>, parse: string -> Result<T, string>, i: nat)
    requires i < |pieces|
    requires ParseDocs(Kept(pieces[..i]), parse).Success?
    requires !Empty(TrimSpace(pieces[i])) && parse(TrimSpace(pieces[i])).Failure?
    ensures ParseDocs(Kept(pieces), parse) == Failure(parse(TrimSpace(pieces[i])).error)
  {
    var doc := TrimSpace(pieces[i]);
    KeptStep(pieces, i);
    ParseDocsStep(Kept(pieces[..i]), doc, parse);
    KeptPrefix(pieces, i + 1);
    PrefixFailure(Kept(pieces[..i + 1]), Kept(pieces), parse);
  }

  lemma PrefixFailure<T>(prefix: seq<string>, docs: seq<string>, parse: string -> Result<T, string>)
    requires |prefix| <= |docs| && docs[..|prefix|] == prefix && ParseDocs(prefix, parse).Failure?
    ensures ParseDocs(docs, parse) == ParseDocs(prefix, parse)
  {
    assert docs == prefix + docs[|prefix|..];
    FailureStays(prefix, docs[|prefix|..], parse);
  }

  // ---------------------------------------------------------------------------
  // Consistency with the cluster

  /** The fields of a topic's metadata that are compared with its cluster; the others
      are not part of this model. */
  datatype ResourceMeta = ResourceMeta(cluster: string, environment: string, region: string)

  datatype ClusterMeta = ClusterMeta(name: string, environment: string, region: string)

  const ClusterMismatch := "Topic cluster name does not match name in cluster config"
  const EnvironmentMismatch := "Topic environment does not match cluster environment"
  const RegionMismatch := "Topic region does not match cluster region"

  /** `CheckConsistency`: no error when the cluster name, environment and region all
      match; otherwise one message per mismatch, in that order. */
  function CheckConsistency(meta: ResourceMeta, cluster: ClusterMeta): (err: Option<seq<string>>)
    ensures err.None? <==>
              meta.cluster == cluster.name && meta.environment == cluster.environment && meta.region == cluster.region
    ensures err.Some? ==> err.value != []
  {
    var errors :=
      (if meta.cluster != cluster.name then [ClusterMismatch] else [])
      + (if meta.environment != cluster.environment then [EnvironmentMismatch] else [])
      + (if meta.region != cluster.region then [RegionMismatch] else []);
    if errors == [] then None else Some(errors)
  }

  /** Each mismatch has exactly one message, and the messages keep the order cluster,
      environment, region. */
  lemma ConsistencyMessages(meta: ResourceMeta, cluster: ClusterMeta)
    ensures var err := CheckConsistency(meta, cluster);
            var c, e, g := meta.cluster != cluster.name, meta.environment != cluster.environment,
                           meta.region != cluster.region;
            err.Some? ==>
              && |err.value| == (if c then 1 else 0) + (if e then 1 else 0) + (if g then 1 else 0)
              && (ClusterMismatch in err.value <==> c)
              && (EnvironmentMismatch in err.value <==> e)
              && (RegionMismatch in err.value <==> g)
              && (c ==> err.value[0] == ClusterMismatch)
              && (g ==> err.value[|err.value| - 1] == RegionMismatch)
  {
    assert ClusterMismatch != EnvironmentMismatch by {
      assert |ClusterMismatch| == 56 && |EnvironmentMismatch| == 52;
    }
    assert ClusterMismatch != RegionMismatch by {
      assert |ClusterMismatch| == 56 && |RegionMismatch| == 42;
    }
    assert EnvironmentMismatch != RegionMismatch by {
      assert |EnvironmentMismatch| == 52 && |RegionMismatch| == 42;
    }
  }
}
