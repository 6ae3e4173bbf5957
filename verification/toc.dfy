/**
  `markedTOC` of app/views/utils/utils.js: the table of contents is the list
  of heading tokens the markdown lexer produces, in document order. The lexer
  belongs to the markdown library and is not part of this model; its output
  is taken as an input token list.
 */
module Toc {

  /** A block token of the lexer, with the fields a heading carries. */
  datatype Token = Token(kind: string, depth: int, text: string)

  predicate IsHeading(t: Token) {
    t.kind == "heading"
  }

  /** `tokens.filter(token => token.type === 'heading')`. */
  function MarkedToc(tokens: seq<Token>): (r: seq<Token>)
    ensures |r| <= |tokens|
    ensures forall i | 0 <= i < |r| :: IsHeading(r[i])
    ensures forall t :: t in r <==> t in tokens && IsHeading(t)
  {
    if |tokens| == 0 then []
    else if IsHeading(tokens[0]) then [tokens[0]] + MarkedToc(tokens[1..])
    else MarkedToc(tokens[1..])
  }

  /** The filter distributes over concatenation: headings keep their
      document order and their multiplicity. */
  lemma {:induction false} TocOfConcat(a: seq<Token>, b: seq<Token>)
    ensures MarkedToc(a + b) == MarkedToc(a) + MarkedToc(b)
  {
    if |a| > 0 {
      assert (a + b)[1..] == a[1..] + b;
      TocOfConcat(a[1..], b);
    } else {
      assert a + b == b;
    }
  }

  /** A list of headings is its own table of contents, so extracting twice
      is extracting once. */
  lemma {:induction false} TocOfHeadings(tokens: seq<Token>)
    requires forall i | 0 <= i < |tokens| :: IsHeading(tokens[i])
    ensures MarkedToc(tokens) == tokens
  {
    if |tokens| > 0 {
      TocOfHeadings(tokens[1..]);
    }
  }

  lemma TocIdempotent(tokens: seq<Token>)
    ensures MarkedToc(MarkedToc(tokens)) == MarkedToc(tokens)
  {
    TocOfHeadings(MarkedToc(tokens));
  }

  /** Headings, paragraph, heading: the outline of `# A`, `## B`, text,
      `# C`. */
  lemma Example()
    ensures MarkedToc([Token("heading", 1, "A"), Token("heading", 2, "B"),
                       Token("paragraph", 0, "x"), Token("heading", 1, "C")])
         == [Token("heading", 1, "A"), Token("heading", 2, "B"), Token("heading", 1, "C")]
  {
    var ts := [Token("heading", 1, "A"), Token("heading", 2, "B"),
               Token("paragraph", 0, "x"), Token("heading", 1, "C")];
    assert ts == ts[..2] + ts[2..];
    TocOfConcat(ts[..2], ts[2..]);
    assert "paragraph" != "heading";
  }
}
