/**
 * The SQL composition layer the generators build on: fragments that keep
 * keywords apart from identifiers, the quoting of identifiers, and the
 * rendering of a fragment to statement text. The generators never paste
 * a name into the text; every table and column name goes through Ident.
 */
module Sql {
  import opened Wrappers

  /** A value stored in a column; a NULL is a Cell without a value. */
  datatype Value = Int(i: int) | Text(s: string)

  type Cell = Option<Value>

  /**
   * A composed SQL fragment: literal SQL text, a quoted identifier, a list
   * joined by a separator, or a concatenation.
   */
  datatype Frag =
    | Kw(text: string)
    | Ident(name: string)
    | Join(sep: string, parts: seq<Frag>)
    | Cat(parts: seq<Frag>)

  /** Doubles every double quote, as PostgreSQL's quoted identifiers require. */
  function Escape(name: string): (r: string)
    ensures |r| >= |name|
  {
    if name == [] then []
    else (if name[0] == '"' then "\"\"" else [name[0]]) + Escape(name[1..])
  }

  /** The identifier as it appears in statement text: escaped and wrapped in double quotes. */
  function QuoteIdent(name: string): (r: string)
    ensures |r| >= 2 && r[0] == '"' && r[|r| - 1] == '"'
  {
    "\"" + Escape(name) + "\""
  }

  /**
   * How a reader of the statement text reads the inside of a quoted
   * identifier: up to the first quote that is not doubled. Gives the name
   * and the text after the closing quote.
   */
  function ReadQuotedBody(t: string): Option<(string, string)>
  {
    if t == [] then None
    else if t[0] == '"' then
      if |t| > 1 && t[1] == '"' then
        match ReadQuotedBody(t[2..])
        case None => None
        case Some(p) => Some(("\"" + p.0, p.1))
      else Some(([], t[1..]))
    else
      match ReadQuotedBody(t[1..])
      case None => None
      case Some(p) => Some(([t[0]] + p.0, p.1))
  }

  /** Reads one quoted identifier from the front of the text. */
  function ReadIdent(t: string): Option<(string, string)>
  {
    if t != [] && t[0] == '"' then ReadQuotedBody(t[1..]) else None
  }

  lemma {:induction false} ReadEscaped(name: string, rest: string)
    requires rest == [] || rest[0] != '"'
    ensures ReadQuotedBody(Escape(name) + "\"" + rest) == Some((name, rest))
  {
    if name == [] {
      assert Escape(name) + "\"" + rest == "\"" + rest;
    } else {
      ReadEscaped(name[1..], rest);
      if name[0] == '"' {
        var t := Escape(name) + "\"" + rest;
        assert t == "\"\"" + (Escape(name[1..]) + "\"" + rest);
        assert t[2..] == Escape(name[1..]) + "\"" + rest;
        assert "\"" + name[1..] == name;
      } else {
        var t := Escape(name) + "\"" + rest;
        assert t == [name[0]] + (Escape(name[1..]) + "\"" + rest);
        assert t[1..] == Escape(name[1..]) + "\"" + rest;
        assert [name[0]] + name[1..] == name;
      }
    }
  }

  /**
   * Injection safety of identifiers: whatever the name holds, a reader of
   * the rendered text reads back exactly that name and stops at its end,
   * so a name can never end the identifier early and inject SQL. (Text that
   * follows an identifier never starts with a quote in these statements.)
   */
  lemma {:induction false} QuotedIdentReadsBack(name: string, rest: string)
    requires rest == [] || rest[0] != '"'
    ensures ReadIdent(QuoteIdent(name) + rest) == Some((name, rest))
  {
    ReadEscaped(name, rest);
    assert QuoteIdent(name) + rest == "\"" + (Escape(name) + "\"" + rest);
  }

  /** Distinct names render to distinct identifiers. */
  lemma QuoteIdentInjective(a: string, b: string)
    requires QuoteIdent(a) == QuoteIdent(b)
    ensures a == b
  {
    QuotedIdentReadsBack(a, []);
    QuotedIdentReadsBack(b, []);
    assert QuoteIdent(a) + [] == QuoteIdent(b) + [];
  }

  /** The strings joined by a separator, as Python's str.join does. */
  function JoinStrings(sep: string, ss: seq<string>): string
  {
    if ss == [] then []
    else if |ss| == 1 then ss[0]
    else ss[0] + sep + JoinStrings(sep, ss[1..])
  }

  function Concat(ss: seq<string>): string
  {
    if ss == [] then [] else ss[0] + Concat(ss[1..])
  }

  /** The statement text of a fragment. */
  function Render(f: Frag): string
  {
    match f
    case Kw(t) => t
    case Ident(n) => QuoteIdent(n)
    case Join(sep, ps) => JoinStrings(sep, RenderAll(ps))
    case Cat(ps) => Concat(RenderAll(ps))
  }

  function RenderAll(ps: seq<Frag>): (r: seq<string>)
    ensures |r| == |ps|
  {
    if ps == [] then [] else [Render(ps[0])] + RenderAll(ps[1..])
  }

  lemma {:induction false} RenderAllAt(ps: seq<Frag>, i: nat)
    requires i < |ps|
    ensures RenderAll(ps)[i] == Render(ps[i])
  {
    if i > 0 {
      RenderAllAt(ps[1..], i - 1);
    }
  }

  /** The text of a concatenation is the text of its head followed by the text of the rest. */
  lemma RenderCatCons(p: Frag, ps: seq<Frag>)
    ensures Render(Cat([p] + ps)) == Render(p) + Render(Cat(ps))
  {
    assert ([p] + ps)[1..] == ps;
  }

  lemma RenderCatSingle(p: Frag)
    ensures Render(Cat([p])) == Render(p)
  {
    RenderCatCons(p, []);
    assert [p] + [] == [p];
  }

  /** The text of a concatenation is the texts of its two halves, one after the other. */
  lemma {:induction false} RenderCatAppend(ps: seq<Frag>, qs: seq<Frag>)
    ensures Render(Cat(ps + qs)) == Render(Cat(ps)) + Render(Cat(qs))
  {
    if ps == [] {
      assert ps + qs == qs;
    } else {
      assert ps + qs == [ps[0]] + (ps[1..] + qs);
      assert ps == [ps[0]] + ps[1..];
      RenderCatCons(ps[0], ps[1..] + qs);
      RenderCatCons(ps[0], ps[1..]);
      RenderCatAppend(ps[1..], qs);
    }
  }

  /** A prefix one part longer renders as the shorter prefix followed by that part. */
  lemma RenderCatPrefix(ps: seq<Frag>, k: nat)
    requires k < |ps|
    ensures Render(Cat(ps[..k + 1])) == Render(Cat(ps[..k])) + Render(ps[k])
  {
    assert ps[..k + 1] == ps[..k] + [ps[k]];
    RenderCatAppend(ps[..k], [ps[k]]);
    RenderCatSingle(ps[k]);
  }

  /** The texts of a list of fragments, element by element. */
  lemma RenderAllElements(ps: seq<Frag>)
    ensures RenderAll(ps) == seq(|ps|, i requires 0 <= i < |ps| => Render(ps[i]))
  {
    forall i | 0 <= i < |ps| ensures RenderAll(ps)[i] == Render(ps[i]) {
      RenderAllAt(ps, i);
    }
  }

  lemma RenderCat3(a: Frag, b: Frag, c: Frag)
    ensures Render(Cat([a, b, c])) == Render(a) + Render(b) + Render(c)
  {
    RenderCatCons(a, [b, c]);
    RenderCatCons(b, [c]);
    RenderCatSingle(c);
  }

  /** An eight-part concatenation, part by part (the shape of most statements here). */
  lemma RenderCat8(ps: seq<Frag>)
    requires |ps| == 8
    ensures Render(Cat(ps)) == Render(ps[0]) + Render(ps[1]) + Render(ps[2]) + Render(ps[3])
                             + Render(ps[4]) + Render(ps[5]) + Render(ps[6]) + Render(ps[7])
  {
    var ss := RenderAll(ps);
    RenderAllElements(ps);
    var s1 := ss[1..]; var s2 := s1[1..]; var s3 := s2[1..]; var s4 := s3[1..];
    var s5 := s4[1..]; var s6 := s5[1..]; var s7 := s6[1..];
    assert Concat(s7) == ss[7] + Concat(s7[1..]);
    assert Concat(s6) == ss[6] + Concat(s7);
    assert Concat(s5) == ss[5] + Concat(s6);
    assert Concat(s4) == ss[4] + Concat(s5);
    assert Concat(s3) == ss[3] + Concat(s4);
    assert Concat(s2) == ss[2] + Concat(s3);
    assert Concat(s1) == ss[1] + Concat(s2);
  }

  /** A fragment is blank when it renders to no text at all (an empty join, say). */
  predicate Blank(f: Frag)
  {
    Render(f) == []
  }

  lemma ConcatNonEmpty(ss: seq<string>, i: nat)
    requires i < |ss| && ss[i] != []
    ensures Concat(ss) != []
  {
    if i > 0 {
      ConcatNonEmpty(ss[1..], i - 1);
    }
  }

  lemma JoinNonEmpty(sep: string, ss: seq<string>)
    requires ss != [] && ss[0] != []
    ensures JoinStrings(sep, ss) != []
  {
  }
}
