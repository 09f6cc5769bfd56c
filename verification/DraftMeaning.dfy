/**
  What the authoring form rejects and what it sends, in terms of what was typed: texts
  without the white space around them, numbers as parseInt reads them.
*/
module DraftMeaning {
  import opened Domain
  import opened DraftText
  import opened DraftSerialization

  /** The node that is sent for what was typed. */
  ghost predicate NodeSent(typed: NodeDraft, parse: Parser, n: Node) {
    && n.id == typed.id && n.kind == typed.kind
    && IsTrimOf(typed.title, n.title) && IsTrimOf(typed.description, n.description)
    && (n.resolution.Some? <==> typed.kind == Terminal)
    && (n.resolution.Some? ==> IsTrimOf(typed.terminalResolution, n.resolution.value))
    && MetadataSent(typed.metadata, parse, n.metadata)
  }

  /** Nothing for a blank box, else the object it parses to. */
  ghost predicate MetadataSent(raw: string, parse: Parser, j: Option<Json>) {
    if AllSpace(raw) then j == None
    else forall t :: IsTrimOf(raw, t) && parse(t).Some? && parse(t).value.Object? ==> j == parse(t)
  }

  /** The edge that is sent for what was typed; a blank description is none, a sort order that is no number is 0. */
  ghost predicate EdgeSent(typed: EdgeDraft, e: Edge) {
    && e.id == typed.id
    && (typed.from.Some? ==> e.from == typed.from.value) && (typed.to.Some? ==> e.to == typed.to.value)
    && IsTrimOf(typed.caption, e.caption)
    && (e.description == None <==> AllSpace(typed.description))
    && (e.description.Some? ==> IsTrimOf(typed.description, e.description.value))
    && SortOrderSent(typed.sortOrder, e.sortOrder)
  }

  ghost predicate SortOrderSent(raw: string, n: int) {
    && (forall blanks, sign, digits, rest :: Reads(raw, blanks, sign, digits, rest) ==>
          n == if sign == "-" then 0 - Value(digits) else Value(digits))
    && (n == 0 || exists blanks, sign, digits, rest :: Reads(raw, blanks, sign, digits, rest))
  }

  lemma SortOrderIsSent(raw: string)
    ensures SortOrderSent(raw, SortOrderOf(raw))
  {
    forall blanks, sign, digits, rest | Reads(raw, blanks, sign, digits, rest)
      ensures SortOrderOf(raw) == if sign == "-" then 0 - Value(digits) else Value(digits)
    {
      ParseIntReads(raw, blanks, sign, digits, rest);
    }
    if ParseInt(raw).Some? { ParseIntOnly(raw); }
  }

  lemma MetadataIsSent(raw: string, parse: Parser)
    ensures MetadataSent(raw, parse, MetadataOf(raw, parse))
  {
    BlankIff(raw);
    forall t | IsTrimOf(raw, t) ensures t == Trim(raw) { TrimUnique(raw, t); }
  }

  lemma NodeIsSent(d: PlaybookDraft, parse: Parser, i: nat)
    requires i < |d.nodes|
    ensures NodeSent(d.nodes[i], parse, Normalised(d, parse).nodes[i])
  {
    TrimCuts(d.nodes[i].title);
    TrimCuts(d.nodes[i].description);
    TrimCuts(d.nodes[i].terminalResolution);
    MetadataIsSent(d.nodes[i].metadata, parse);
  }

  lemma EdgeIsSent(d: PlaybookDraft, i: nat)
    requires i < |d.edges|
    ensures EdgeSent(d.edges[i], SentEdges(d)[i])
  {
    TrimCuts(d.edges[i].caption);
    TrimCuts(d.edges[i].description);
    BlankIff(d.edges[i].description);
    SortOrderIsSent(d.edges[i].sortOrder);
  }

  /** Node by node and edge by edge, what is sent is what was typed, tidied. */
  lemma GraphSent(d: PlaybookDraft, parse: Parser)
    ensures var g := Normalised(d, parse);
      && g.root == d.root && |g.nodes| == |d.nodes| && |g.edges| == |d.edges|
      && (forall i :: 0 <= i < |d.nodes| ==> NodeSent(d.nodes[i], parse, g.nodes[i]))
      && (forall i :: 0 <= i < |d.edges| ==> EdgeSent(d.edges[i], g.edges[i]))
  {
    forall i | 0 <= i < |d.nodes| ensures NodeSent(d.nodes[i], parse, Normalised(d, parse).nodes[i]) { NodeIsSent(d, parse, i); }
    forall i | 0 <= i < |d.edges| ensures EdgeSent(d.edges[i], Normalised(d, parse).edges[i]) { EdgeIsSent(d, i); }
  }

  // ----- problems

  /** The two texts are the same but for white space around them. */
  ghost predicate SameTrimmed(s: string, t: string) {
    exists u :: IsTrimOf(s, u) && IsTrimOf(t, u)
  }

  lemma SameTrimmedIff(s: string, t: string)
    ensures SameTrimmed(s, t) <==> Trim(s) == Trim(t)
  {
    TrimCuts(s);
    TrimCuts(t);
    if u :| IsTrimOf(s, u) && IsTrimOf(t, u) {
      TrimUnique(s, u);
      TrimUnique(t, u);
    }
  }

  /** A box that holds something else than blanks, which parses to this. */
  ghost predicate ParsesTo(raw: string, parse: Parser, j: Option<Json>) {
    !AllSpace(raw) && exists t :: IsTrimOf(raw, t) && parse(t) == j
  }

  lemma ParsesToIs(raw: string, parse: Parser, j: Option<Json>)
    ensures ParsesTo(raw, parse, j) <==> Trim(raw) != "" && parse(Trim(raw)) == j
  {
    BlankIff(raw);
    TrimCuts(raw);
    if t :| IsTrimOf(raw, t) && parse(t) == j { TrimUnique(raw, t); }
  }

  lemma NodeProblemsMean(d: PlaybookDraft, parse: Parser, i: nat)
    requires i < |d.nodes|
    ensures var n := d.nodes[i];
      && (NodeProblem(d, parse, i, NodeIdRepeated) <==> exists j :: 0 <= j < i && d.nodes[j].id == n.id)
      && (NodeProblem(d, parse, i, TitleMissing) <==> AllSpace(n.title))
      && (NodeProblem(d, parse, i, ResolutionMissing) <==> n.kind == Terminal && AllSpace(n.terminalResolution))
      && (NodeProblem(d, parse, i, MetadataNotJson) <==> ParsesTo(n.metadata, parse, None))
      && (NodeProblem(d, parse, i, MetadataNotObject) <==> exists text :: ParsesTo(n.metadata, parse, Some(Other(text))))
  {
    var n := d.nodes[i];
    BlankIff(n.title);
    BlankIff(n.terminalResolution);
    forall j ensures ParsesTo(n.metadata, parse, j) <==> Trim(n.metadata) != "" && parse(Trim(n.metadata)) == j {
      ParsesToIs(n.metadata, parse, j);
    }
    if NodeProblem(d, parse, i, MetadataNotObject) {
      assert ParsesTo(n.metadata, parse, Some(Other(parse(Trim(n.metadata)).value.text)));
    }
  }

  lemma EdgeProblemsMean(d: PlaybookDraft, i: nat)
    requires i < |d.edges|
    ensures var e := d.edges[i];
      && (EdgeProblem(d, i, EdgeIdRepeated) <==> exists j :: 0 <= j < i && d.edges[j].id == e.id)
      && (EdgeProblem(d, i, LabelMissing) <==> AllSpace(e.caption))
      && (EdgeProblem(d, i, LabelRepeated) <==>
            (e.from.Some? && !AllSpace(e.caption) &&
             exists j :: 0 <= j < i && d.edges[j].from == e.from && SameTrimmed(d.edges[j].caption, e.caption)))
      && (EdgeProblem(d, i, FromUnset) <==> e.from == None)
      && (EdgeProblem(d, i, FromGone) <==> e.from.Some? && forall n :: n in d.nodes ==> n.id != e.from.value)
      && (EdgeProblem(d, i, ToUnset) <==> e.to == None)
      && (EdgeProblem(d, i, ToGone) <==> e.to.Some? && forall n :: n in d.nodes ==> n.id != e.to.value)
  {
    BlankIff(d.edges[i].caption);
    forall j | 0 <= j < i ensures SameTrimmed(d.edges[j].caption, d.edges[i].caption) <==> Trim(d.edges[j].caption) == Trim(d.edges[i].caption) {
      SameTrimmedIff(d.edges[j].caption, d.edges[i].caption);
    }
  }
}
