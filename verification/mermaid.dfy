/**
  The Mermaid flowchart of an analysed project (`MermaidGenerator.java`): a
  fixed header naming the project and its five layers, then one count line
  for each layer that has at least one file. The text is the concatenation of
  its lines, every one ending in a newline.
*/
module Mermaid {
  import opened Text
  import opened Optional
  import opened ProjectStructures

  /** A layer of the diagram: its node letter, the file type it counts and the label of its count. */
  datatype Category = Category(node: char, fileType: string, caption: string)

  /** The layers in diagram order; their node letters run from 'B' to 'F'. */
  const LayerCount := 5

  function Layer(j: nat): (c: Category)
    requires j < LayerCount
    ensures c.node as int == 'B' as int + j
  {
    match j
    case 0 => Category('B', "Controller", "Controllers")
    case 1 => Category('C', "Service", "Services")
    case 2 => Category('D', "Repository", "Repositories")
    case 3 => Category('E', "Entity", "Entities")
    case _ => Category('F', "Configuration", "Configs")
  }

  /** The lines every diagram starts with: the graph kind and the five edges from the project node. */
  function HeaderLines(projectName: string): (ls: seq<string>)
    ensures |ls| == 6 && ls[0] == "graph TD\n"
    ensures StartsWith(ls[1], "    A[" + projectName + "]")
    ensures forall k :: 1 <= k < 6 ==> |ls[k]| > 4 && ls[k][4] == 'A'
  {
    var first := "    A[" + projectName + "] --> B[Controllers]\n";
    assert first[..|"    A[" + projectName + "]"|] == "    A[" + projectName + "]";
    ["graph TD\n", first, "    A --> C[Services]\n", "    A --> D[Repositories]\n",
     "    A --> E[Entities]\n", "    A --> F[Configuration]\n"]
  }

  /** The number of files whose type is exactly `fileType`. */
  function CountOf(files: seq<FileInfo>, fileType: string): (n: nat)
    ensures n <= |files|
  {
    if |files| == 0 then 0
    else (if files[0].fileType == fileType then 1 else 0) + CountOf(files[1..], fileType)
  }

  /** The file types, in file order. */
  function Types(files: seq<FileInfo>): (ts: seq<string>)
    ensures |ts| == |files| && forall k :: 0 <= k < |files| ==> ts[k] == files[k].fileType
  {
    if |files| == 0 then [] else [files[0].fileType] + Types(files[1..])
  }

  /** The count is the multiplicity of the type among the files' types. */
  lemma {:induction false} CountOfIsMultiplicity(files: seq<FileInfo>, fileType: string)
    ensures CountOf(files, fileType) == multiset(Types(files))[fileType]
  {
    if |files| > 0 {
      CountOfIsMultiplicity(files[1..], fileType);
      assert Types(files) == [files[0].fileType] + Types(files[1..]);
    }
  }

  /** The five layer counts, each file counting for at most one of them. */
  function LayerTotal(files: seq<FileInfo>): nat {
    CountOf(files, "Controller") + CountOf(files, "Service") + CountOf(files, "Repository")
      + CountOf(files, "Entity") + CountOf(files, "Configuration")
  }

  /** The counted files never outnumber the files: a file has one type. */
  lemma {:induction false} LayerTotalBounded(files: seq<FileInfo>)
    ensures LayerTotal(files) <= |files|
  {
    if |files| > 0 {
      LayerTotalBounded(files[1..]);
    }
  }

  /** The start of a count line: the edge from the layer's node to its count node. */
  function CountEdge(c: Category): (e: string)
    ensures |e| > 5 && e[4] == c.node && e[..4] == "    "
  {
    "    " + [c.node] + " --> " + [c.node] + "1["
  }

  /** The line announcing `n` files of a layer, hung off that layer's node. */
  function CountLine(c: Category, n: nat): (line: string)
    ensures |line| > 5 && line[4] == c.node && line[..4] == "    "
  {
    var e := CountEdge(c);
    assert (e + (NatToString(n) + " " + c.caption) + "]\n")[..5] == e[..5];
    e + (NatToString(n) + " " + c.caption) + "]\n"
  }

  /** The line shows the count, in decimal, followed by the layer's caption. */
  lemma CountLineShowsCount(c: Category, n: nat)
    ensures Contains(CountLine(c, n), NatToString(n) + " " + c.caption)
  {
    ContainsSelf(CountEdge(c), NatToString(n) + " " + c.caption, "]\n");
  }

  /** The file count of each layer, in layer order. */
  function LayerCounts(files: seq<FileInfo>): (ns: seq<nat>)
    ensures |ns| == LayerCount
    ensures forall j :: 0 <= j < LayerCount ==> ns[j] == CountOf(files, Layer(j).fileType)
  {
    seq(LayerCount, j requires 0 <= j < LayerCount => CountOf(files, Layer(j).fileType))
  }

  /** The positions from `i` on whose count is positive, in increasing order. */
  function PresentLayers(ns: seq<nat>, i: nat): (ps: seq<nat>)
    requires i <= |ns|
    ensures forall k :: 0 <= k < |ps| ==> i <= ps[k] < |ns| && ns[ps[k]] > 0
    decreases |ns| - i
  {
    if i == |ns| then []
    else (if ns[i] > 0 then [i] else []) + PresentLayers(ns, i + 1)
  }

  /** Every position from `i` on with a positive count is listed. */
  lemma {:induction false} PresentLayersComplete(ns: seq<nat>, i: nat, j: nat)
    requires i <= j < |ns| && ns[j] > 0
    ensures j in PresentLayers(ns, i)
    decreases |ns| - i
  {
    var head := if ns[i] > 0 then [i] else [];
    assert PresentLayers(ns, i) == head + PresentLayers(ns, i + 1);
    if j > i {
      PresentLayersComplete(ns, i + 1, j);
    }
  }

  /** The listed positions are strictly increasing. */
  lemma {:induction false} PresentLayersIncreasing(ns: seq<nat>, i: nat)
    requires i <= |ns|
    ensures forall a, b :: 0 <= a < b < |PresentLayers(ns, i)| ==> PresentLayers(ns, i)[a] < PresentLayers(ns, i)[b]
    decreases |ns| - i
  {
    if i < |ns| {
      PresentLayersIncreasing(ns, i + 1);
      var ps := PresentLayers(ns, i);
      var head := if ns[i] > 0 then [i] else [];
      var tail := PresentLayers(ns, i + 1);
      assert ps == head + tail;
      forall a, b | 0 <= a < b < |ps| ensures ps[a] < ps[b] {
        assert ps[b] == tail[b - |head|] && i < tail[b - |head|];
        if a >= |head| {
          assert ps[a] == tail[a - |head|] < tail[b - |head|];
        } else {
          assert ps[a] == i;
        }
      }
    }
  }

  /** One count line per layer with files, in layer order. */
  function CountLines(files: seq<FileInfo>): (ls: seq<string>)
    ensures var ns := LayerCounts(files);
      var ps := PresentLayers(ns, 0);
      |ls| == |ps| && forall k :: 0 <= k < |ps| ==> ls[k] == CountLine(Layer(ps[k]), ns[ps[k]])
  {
    var ns := LayerCounts(files);
    var ps := PresentLayers(ns, 0);
    seq(|ps|, k requires 0 <= k < |ps| => CountLine(Layer(ps[k]), ns[ps[k]]))
  }

  /** The lines of the diagram: the header, then the count lines when the file list is known. */
  function DiagramLines(ps: ProjectStructure): (ls: seq<string>)
    ensures |ls| >= 6 && ls[..6] == HeaderLines(ps.projectName)
    ensures ps.javaFiles.None? ==> ls == HeaderLines(ps.projectName)
    ensures ps.javaFiles.Some? ==> ls[6..] == CountLines(ps.javaFiles.value)
  {
    match ps.javaFiles
    case None => HeaderLines(ps.projectName)
    case Some(files) => HeaderLines(ps.projectName) + CountLines(files)
  }

  function ProjectDiagram(ps: ProjectStructure): string {
    Concat(DiagramLines(ps))
  }

  /**
    With a known file list, a layer's count line, carrying its count, is in the
    diagram exactly when the layer has at least one file.
  */
  lemma CountLineIff(ps: ProjectStructure, j: nat)
    requires ps.javaFiles.Some? && j < LayerCount
    ensures var n := CountOf(ps.javaFiles.value, Layer(j).fileType);
      CountLine(Layer(j), n) in DiagramLines(ps) <==> n > 0
  {
    var files := ps.javaFiles.value;
    var ns := LayerCounts(files);
    var n := ns[j];
    var line := CountLine(Layer(j), n);
    var ls := DiagramLines(ps);
    var present := PresentLayers(ns, 0);
    if n > 0 {
      PresentLayersComplete(ns, 0, j);
      var k :| 0 <= k < |present| && present[k] == j;
      assert ls[6 + k] == line;
    } else {
      forall k | 0 <= k < |ls| ensures ls[k] != line {
        if k >= 6 {
          var p := present[k - 6];
          assert ls[k] == CountLine(Layer(p), ns[p]);
          assert p != j;
        } else {
          HeaderNotCountLine(ps.projectName, k, line, Layer(j));
        }
      }
    }
  }

  /** No header line is a count line: the header hangs everything off node 'A'. */
  lemma HeaderNotCountLine(projectName: string, k: nat, line: string, c: Category)
    requires k < 6 && 'B' <= c.node && |line| > 4 && line[4] == c.node && line[..4] == "    "
    ensures HeaderLines(projectName)[k] != line
  {
    if k == 0 {
      assert line[0] == line[..4][0] == ' ';
    }
  }

  /** Without a file list the diagram is the header alone; with one, the header comes first. */
  lemma DiagramStartsWithHeader(ps: ProjectStructure)
    ensures StartsWith(ProjectDiagram(ps), Concat(HeaderLines(ps.projectName)))
    ensures ps.javaFiles.None? ==> ProjectDiagram(ps) == Concat(HeaderLines(ps.projectName))
  {
    var ls := DiagramLines(ps);
    var h := HeaderLines(ps.projectName);
    assert ls == h + ls[6..];
    ConcatAppend(h, ls[6..]);
  }


  /** The count lines follow the header in layer order: their node letters strictly increase. */
  lemma CountLinesInLayerOrder(ps: ProjectStructure, a: nat, b: nat)
    requires 6 <= a < b < |DiagramLines(ps)|
    ensures DiagramLines(ps)[a][4] < DiagramLines(ps)[b][4]
  {
    var files := ps.javaFiles.value;
    var ns := LayerCounts(files);
    var present := PresentLayers(ns, 0);
    PresentLayersIncreasing(ns, 0);
    assert DiagramLines(ps)[a] == CountLine(Layer(present[a - 6]), ns[present[a - 6]]);
    assert DiagramLines(ps)[b] == CountLine(Layer(present[b - 6]), ns[present[b - 6]]);
  }
}
