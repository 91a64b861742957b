/**
 The C declarator printer of the BTF dumper (libbpf/src/btf_dump.c): a chain of pointers, arrays,
 function prototypes and modifiers is printed inside out around a name. Parameter lists are opaque.

 The printed text is a sequence of pieces; reading it back follows the declarator grammar and the
 meaning of declarators of section 6.7.6 of ISO/IEC 9899:2011.
 */
module DumpDeclarator {

  datatype Qualifier = QVolatile | QConst | QRestrict

  /** One type of a declaration chain. A chain lists the declared type first and the base type last. */
  datatype Item = Ptr | Mod(q: Qualifier) | Array(n: nat) | Proto(params: string) | Base(name: string)

  /** Printed text. `List` is a non-empty parameter list without its parentheses. */
  datatype Piece =
    | Qual(q: Qualifier) | BaseName(name: string) | Ident(name: string)
    | Space | Star | LParen | RParen | Bracket(n: nat) | List(params: string)

  // ----- printing -----

  /** The number of modifiers at the top of the stack. */
  function ModCount(ds: seq<Item>): (k: nat)
    ensures k <= |ds|
  {
    if ds == [] || !ds[|ds| - 1].Mod? then 0 else 1 + ModCount(ds[..|ds| - 1])
  }

  function BelowMods(ds: seq<Item>): seq<Item> { ds[..|ds| - ModCount(ds)] }

  /** Modifiers printed in front of a base type. */
  function ModPieces(ds: seq<Item>): seq<Piece> {
    if ds == [] || !ds[|ds| - 1].Mod? then [] else [Qual(ds[|ds| - 1].q), Space] + ModPieces(ds[..|ds| - 1])
  }

  function NamePieces(name: string, lastWasPtr: bool): seq<Piece> {
    if name == "" then [] else if lastWasPtr then [Ident(name)] else [Space, Ident(name)]
  }

  function ParamPieces(params: string): seq<Piece> {
    [LParen] + (if params == "" then [] else [List(params)]) + [RParen]
  }

  /** What is printed for the types left on the stack. */
  function Pieces(ds: seq<Item>, name: string, lastWasPtr: bool): seq<Piece>
    decreases |ds|
  {
    if ds == [] then NamePieces(name, lastWasPtr)
    else
      var rest := ds[..|ds| - 1];
      match ds[|ds| - 1]
      case Base(b) => ModPieces(rest) + [BaseName(b)] + Pieces(BelowMods(rest), name, false)
      case Ptr => (if lastWasPtr then [Star] else [Space, Star]) + Pieces(rest, name, true)
      case Mod(q) => [Space, Qual(q)] + Pieces(rest, name, false)
      case Array(n) =>
        var inner := BelowMods(rest);
        ArrayPieces(inner, n, if inner == [] then [] else Pieces(inner, name, true), name, lastWasPtr)
      case Proto(ps) =>
        var inner := BelowMods(rest);
        ProtoPieces(ModPieces(rest), inner, ps, if inner == [] then [] else Pieces(inner, name, true), name, lastWasPtr)
  }

  /** An array declarator around what is printed for `inner`; only dimensions need no parentheses. */
  function ArrayPieces(inner: seq<Item>, n: nat, text: seq<Piece>, name: string, lastWasPtr: bool): seq<Piece> {
    if inner == [] then NamePieces(name, lastWasPtr) + [Bracket(n)]
    else
      (if name != "" && !lastWasPtr then [Space] else []) +
      (if inner[|inner| - 1].Array? then text else [LParen] + text + [RParen]) + [Bracket(n)]
  }

  function ProtoPieces(mods: seq<Piece>, inner: seq<Item>, ps: string, text: seq<Piece>, name: string, lastWasPtr: bool): seq<Piece> {
    mods + (if inner == [] then NamePieces(name, lastWasPtr) else [Space, LParen] + text + [RParen]) + ParamPieces(ps)
  }

  class Printer {
    const decls: seq<Item>
    var cnt: nat
    var out: seq<Piece>

    constructor (decls: seq<Item>)
      ensures this.decls == decls && cnt == |decls| && out == []
    {
      this.decls, cnt, out := decls, |decls|, [];
    }

    method EmitMods()
      requires cnt <= |decls|
      modifies this
      ensures cnt == old(cnt) - ModCount(decls[..old(cnt)]) && out == old(out) + ModPieces(decls[..old(cnt)])
    {
      ghost var n := cnt;
      while cnt > 0 && decls[cnt - 1].Mod?
        invariant cnt <= n <= |decls|
        invariant cnt - ModCount(decls[..cnt]) == n - ModCount(decls[..n])
        invariant out + ModPieces(decls[..cnt]) == old(out) + ModPieces(decls[..n])
      {
        assert decls[..cnt][..cnt - 1] == decls[..cnt - 1];
        out := out + [Qual(decls[cnt - 1].q), Space];
        cnt := cnt - 1;
      }
    }

    method SkipMods()
      requires cnt <= |decls|
      modifies `cnt
      ensures cnt == old(cnt) - ModCount(decls[..old(cnt)])
    {
      ghost var n := cnt;
      while cnt > 0 && decls[cnt - 1].Mod?
        invariant cnt <= n <= |decls| && cnt - ModCount(decls[..cnt]) == n - ModCount(decls[..n])
      {
        assert decls[..cnt][..cnt - 1] == decls[..cnt - 1];
        cnt := cnt - 1;
      }
    }

    method EmitName(name: string, lastWasPtr: bool)
      modifies `out
      ensures out == old(out) + NamePieces(name, lastWasPtr)
    {
      var separate := name != "" && !lastWasPtr;
      if separate { out := out + [Space]; }
      if name != "" { out := out + [Ident(name)]; }
    }

    method EmitArray(n: nat, name: string, lastWasPtr: bool)
      requires 0 < cnt <= |decls| && decls[cnt - 1] == Array(n)
      modifies this
      ensures cnt == 0 && out == old(out) + Pieces(decls[..old(cnt)], name, lastWasPtr)
      decreases cnt, 1
    {
      ghost var ds, o, c := decls[..cnt], out, cnt - 1;
      assert ds[..|ds| - 1] == decls[..c];
      PiecesArray(ds, name, lastWasPtr);
      hide Pieces, ModCount, NamePieces;
      cnt := cnt - 1;
      SkipMods();
      assert BelowMods(decls[..c]) == decls[..cnt];
      if cnt == 0 {
        EmitName(name, lastWasPtr);
        out := out + [Bracket(n)];
        assert out == o + (NamePieces(name, lastWasPtr) + [Bracket(n)]);
        return;
      }
      EmitArrayAround(n, name, lastWasPtr);
    }

    method EmitArrayAround(n: nat, name: string, lastWasPtr: bool)
      requires 0 < cnt <= |decls|
      modifies this
      ensures cnt == 0
      ensures out == old(out) + ArrayPieces(decls[..old(cnt)], n, Pieces(decls[..old(cnt)], name, true), name, lastWasPtr)
      decreases cnt, 3
    {
      hide Pieces, NamePieces;
      ghost var o, text := out, Pieces(decls[..cnt], name, true);
      ghost var space := if name != "" && !lastWasPtr then [Space] else [];
      var multidim := decls[cnt - 1].Array?;
      if name != "" && !lastWasPtr { out := out + [Space]; }
      assert out == o + space;
      if !multidim { out := out + [LParen]; }
      EmitTypeChain(name);
      if !multidim { out := out + [RParen]; }
      ghost var body := if multidim then text else [LParen] + text + [RParen];
      assert out == o + (space + body);
      out := out + [Bracket(n)];
      assert out == o + (space + body + [Bracket(n)]);
    }

    method EmitProto(ps: string, name: string, lastWasPtr: bool)
      requires 0 < cnt <= |decls| && decls[cnt - 1] == Proto(ps)
      modifies this
      ensures cnt == 0 && out == old(out) + Pieces(decls[..old(cnt)], name, lastWasPtr)
      decreases cnt, 1
    {
      ghost var ds, c := decls[..cnt], cnt - 1;
      assert ds[..|ds| - 1] == decls[..c];
      PiecesProto(ds, name, lastWasPtr);
      hide Pieces, ModCount, ModPieces, NamePieces, ParamPieces;
      cnt := cnt - 1;
      EmitMods();
      assert BelowMods(decls[..c]) == decls[..cnt];
      ghost var o, mods := old(out), ModPieces(decls[..c]);
      ghost var inner := if cnt == 0 then [] else Pieces(decls[..cnt], name, true);
      ghost var text := if cnt == 0 then NamePieces(name, lastWasPtr) else [Space, LParen] + inner + [RParen];
      ghost var pre := out;
      if cnt > 0 {
        out := out + [Space, LParen];
        EmitTypeChain(name);
        out := out + [RParen];
        Regroup(pre, [Space, LParen], inner);
        Regroup(pre, [Space, LParen] + inner, [RParen]);
      } else {
        EmitName(name, lastWasPtr);
      }
      assert out == pre + text;
      out := out + ParamPieces(ps);
      Regroup(o, mods, text);
      Regroup(o, mods + text, ParamPieces(ps));
    }

    /** Pops the whole stack and prints its declarator around the name. */
    method EmitTypeChain(name: string)
      requires cnt <= |decls|
      modifies this
      ensures cnt == 0 && out == old(out) + Pieces(decls[..old(cnt)], name, true)
      decreases cnt, 2
    {
      hide Pieces, ModCount, ModPieces, NamePieces, BelowMods;
      var lastWasPtr := true;
      ghost var n, o, all := cnt, out, Pieces(decls[..cnt], name, true);
      while cnt > 0 && !decls[cnt - 1].Array? && !decls[cnt - 1].Proto?
        invariant cnt <= n <= |decls| && out + Pieces(decls[..cnt], name, lastWasPtr) == o + all
      {
        lastWasPtr := EmitSimple(name, lastWasPtr);
      }
      if cnt == 0 {
        PiecesEnd(decls[..cnt], name, lastWasPtr);
        EmitName(name, lastWasPtr);
      } else if decls[cnt - 1].Array? {
        EmitArray(decls[cnt - 1].n, name, lastWasPtr);
      } else {
        EmitProto(decls[cnt - 1].params, name, lastWasPtr);
      }
    }

    /** Pops one type that keeps the loop going. */
    method EmitSimple(name: string, lastWasPtr: bool) returns (isPtr: bool)
      requires 0 < cnt <= |decls| && !decls[cnt - 1].Array? && !decls[cnt - 1].Proto?
      modifies this
      ensures cnt < old(cnt)
      ensures out + Pieces(decls[..cnt], name, isPtr) == old(out) + Pieces(decls[..old(cnt)], name, lastWasPtr)
    {
      ghost var ds, o := decls[..cnt], out;
      cnt := cnt - 1;
      var c := cnt;
      assert ds[..|ds| - 1] == decls[..c];
      isPtr := decls[c].Ptr?;
      PiecesSimple(ds, name, lastWasPtr);
      hide Pieces, ModCount, ModPieces;
      ghost var part: seq<Piece>;
      match decls[c] {
        case Base(b) =>
          EmitMods();
          out := out + [BaseName(b)];
          part := ModPieces(decls[..c]) + [BaseName(b)];
          Regroup(o, ModPieces(decls[..c]), [BaseName(b)]);
          assert decls[..c][..cnt] == decls[..cnt];
        case Ptr =>
          part := if lastWasPtr then [Star] else [Space, Star];
          out := out + if lastWasPtr then [Star] else [Space, Star];
        case Mod(q) =>
          part := [Space, Qual(q)];
          out := out + [Space, Qual(q)];
      }
      Regroup(o, part, Pieces(decls[..cnt], name, isPtr));
    }
  }

  lemma PiecesEnd(ds: seq<Item>, name: string, lastWasPtr: bool)
    requires ds == []
    ensures Pieces(ds, name, lastWasPtr) == NamePieces(name, lastWasPtr)
  {
  }

  function SimplePieces(ds: seq<Item>, name: string, lastWasPtr: bool): seq<Piece>
    requires ds != [] && !ds[|ds| - 1].Array? && !ds[|ds| - 1].Proto?
  {
    var rest := ds[..|ds| - 1];
    match ds[|ds| - 1]
    case Base(b) => ModPieces(rest) + [BaseName(b)] + Pieces(BelowMods(rest), name, false)
    case Ptr => (if lastWasPtr then [Star] else [Space, Star]) + Pieces(rest, name, true)
    case Mod(q) => [Space, Qual(q)] + Pieces(rest, name, false)
  }

  lemma PiecesSimple(ds: seq<Item>, name: string, lastWasPtr: bool)
    requires ds != [] && !ds[|ds| - 1].Array? && !ds[|ds| - 1].Proto?
    ensures Pieces(ds, name, lastWasPtr) == SimplePieces(ds, name, lastWasPtr)
  {
  }

  lemma PiecesArray(ds: seq<Item>, name: string, lastWasPtr: bool)
    requires ds != [] && ds[|ds| - 1].Array?
    ensures var inner := BelowMods(ds[..|ds| - 1]);
      Pieces(ds, name, lastWasPtr) == ArrayPieces(inner, ds[|ds| - 1].n, if inner == [] then [] else Pieces(inner, name, true), name, lastWasPtr)
  {
  }

  lemma PiecesProto(ds: seq<Item>, name: string, lastWasPtr: bool)
    requires ds != [] && ds[|ds| - 1].Proto?
    ensures var rest := ds[..|ds| - 1];
      var inner := BelowMods(rest);
      Pieces(ds, name, lastWasPtr) ==
      ProtoPieces(ModPieces(rest), inner, ds[|ds| - 1].params, if inner == [] then [] else Pieces(inner, name, true), name, lastWasPtr)
  {
  }

  // ----- reading C declarators -----

  datatype Declarator =
    | Name(name: string)                                      // empty in an abstract declarator
    | PointerTo(quals: seq<Qualifier>, d: Declarator)
    | ArrayOf(d: Declarator, n: nat)
    | FunctionOf(d: Declarator, params: string)

  datatype Parsed = Failed | Got(d: Declarator, rest: seq<Piece>)

  function QualCount(ts: seq<Piece>): (k: nat)
    ensures k <= |ts|
  {
    if ts == [] || !ts[0].Qual? then 0 else 1 + QualCount(ts[1..])
  }

  function Quals(ts: seq<Piece>): seq<Qualifier> {
    if ts == [] || !ts[0].Qual? then [] else [ts[0].q] + Quals(ts[1..])
  }

  /** A declarator: pointers, then a direct declarator. */
  function ParseDecl(ts: seq<Piece>): (p: Parsed)
    ensures p.Got? ==> |p.rest| <= |ts|
    decreases |ts|, 1
  {
    if ts != [] && ts[0] == Star then
      var rest := ts[1..];
      match ParseDecl(rest[QualCount(rest)..])
      case Failed => Failed
      case Got(d, r) => Got(PointerTo(Quals(rest), d), r)
    else ParseDirect(ts)
  }

  /** A parenthesis opens a declarator, not a parameter list: a parameter list is empty or starts with a type. */
  predicate IsGroup(ts: seq<Piece>) {
    |ts| >= 2 && ts[0] == LParen && (ts[1] == Star || ts[1] == LParen || ts[1].Bracket? || ts[1].Ident?)
  }

  /** A name or a declarator in parentheses, with array and function suffixes. */
  function ParseDirect(ts: seq<Piece>): (p: Parsed)
    ensures p.Got? ==> |p.rest| <= |ts|
    decreases |ts|, 0
  {
    if ts != [] && ts[0].Ident? then ParseSuffix(Name(ts[0].name), ts[1..])
    else if IsGroup(ts) then
      match ParseDecl(ts[1..])
      case Failed => Failed
      case Got(d, r) => if r != [] && r[0] == RParen then ParseSuffix(d, r[1..]) else Failed
    else ParseSuffix(Name(""), ts)
  }

  function ParseSuffix(d: Declarator, ts: seq<Piece>): (p: Parsed)
    ensures p.Got? && |p.rest| <= |ts|
    decreases |ts|
  {
    if ts != [] && ts[0].Bracket? then ParseSuffix(ArrayOf(d, ts[0].n), ts[1..])
    else if |ts| >= 2 && ts[0] == LParen && ts[1] == RParen then ParseSuffix(FunctionOf(d, ""), ts[2..])
    else if |ts| >= 3 && ts[0] == LParen && ts[1].List? && ts[2] == RParen then ParseSuffix(FunctionOf(d, ts[1].params), ts[3..])
    else Got(d, ts)
  }

  /** The types a declarator adds to the type it is applied to, the declared type first. */
  function Items(d: Declarator): seq<Item> {
    match d
    case Name(_) => []
    case PointerTo(quals, e) => Items(e) + Modifiers(quals) + [Ptr]
    case ArrayOf(e, n) => Items(e) + [Array(n)]
    case FunctionOf(e, params) => Items(e) + [Proto(params)]
  }

  /** The first qualifier applies first. */
  function Modifiers(quals: seq<Qualifier>): seq<Item> {
    if quals == [] then [] else Modifiers(quals[1..]) + [Mod(quals[0])]
  }

  function NameOf(d: Declarator): string {
    match d
    case Name(name) => name
    case PointerTo(_, e) => NameOf(e)
    case ArrayOf(e, _) => NameOf(e)
    case FunctionOf(e, _) => NameOf(e)
  }

  datatype Declaration = Invalid | Declares(name: string, chain: seq<Item>)

  /** Qualifiers, a base type and a declarator, up to the end. */
  function ParseDeclaration(ts: seq<Piece>): Declaration {
    var rest := ts[QualCount(ts)..];
    if rest == [] || !rest[0].BaseName? then Invalid
    else
      match ParseDecl(rest[1..])
      case Failed => Invalid
      case Got(d, r) => if r != [] then Invalid else Declares(NameOf(d), Items(d) + Modifiers(Quals(ts)) + [Base(rest[0].name)])
  }

  /** What a C lexer sees: spaces only separate. */
  function Tokens(ps: seq<Piece>): seq<Piece> {
    if ps == [] then [] else First(ps[0]) + Tokens(ps[1..])
  }

  function First(p: Piece): seq<Piece> { if p == Space then [] else [p] }

  lemma TokensNone(ps: seq<Piece>)
    requires ps == []
    ensures Tokens(ps) == []
  {
  }

  lemma TokensFirst(ps: seq<Piece>)
    requires ps != []
    ensures Tokens(ps) == First(ps[0]) + Tokens(ps[1..])
  {
  }

  lemma {:induction false} TokensConcat(a: seq<Piece>, b: seq<Piece>)
    ensures Tokens(a + b) == Tokens(a) + Tokens(b)
    decreases |a|
  {
    hide Tokens, First;
    if a == [] {
      assert a + b == b;
      TokensNone(a);
    } else {
      TokensConcat(a[1..], b);
      assert (a + b)[1..] == a[1..] + b;
      TokensFirst(a);
      TokensFirst(a + b);
      Regroup(First(a[0]), Tokens(a[1..]), Tokens(b));
    }
  }

  // ----- chains the printer handles -----

  /** A chain without its base type: modifiers stand on pointers or arrays, not on functions. */
  predicate Core(ds: seq<Item>)
    decreases |ds|
  {
    ds == [] ||
    var rest := ds[..|ds| - 1];
    match ds[|ds| - 1]
    case Ptr => Core(BelowMods(rest))
    case Array(_) => Core(BelowMods(rest))
    case Proto(_) => ModCount(rest) == 0 && Core(rest)
    case Mod(_) => false
    case Base(_) => false
  }

  function TopMods(ds: seq<Item>): seq<Item> { ds[|ds| - ModCount(ds)..] }

  /** The chain without the modifiers of its arrays, which are not printed. */
  function Kept(ds: seq<Item>): seq<Item>
    requires Core(ds)
    decreases |ds|
  {
    if ds == [] then []
    else
      var rest := ds[..|ds| - 1];
      match ds[|ds| - 1]
      case Ptr => Kept(BelowMods(rest)) + TopMods(rest) + [Ptr]
      case Array(n) => Kept(BelowMods(rest)) + [Array(n)]
      case Proto(ps) => Kept(rest) + [Proto(ps)]
  }

  /** The declarator to be read back. */
  function Ast(ds: seq<Item>, name: string): Declarator
    requires Core(ds)
    decreases |ds|
  {
    if ds == [] then Name(name)
    else
      var rest := ds[..|ds| - 1];
      match ds[|ds| - 1]
      case Ptr => PointerTo(ModQuals(rest), Ast(BelowMods(rest), name))
      case Array(n) => ArrayOf(Ast(BelowMods(rest), name), n)
      case Proto(ps) => FunctionOf(Ast(rest, name), ps)
  }

  function ModQuals(ds: seq<Item>): seq<Qualifier> {
    if ds == [] || !ds[|ds| - 1].Mod? then [] else [ds[|ds| - 1].q] + ModQuals(ds[..|ds| - 1])
  }

  lemma {:induction false} ModifiersAre(ds: seq<Item>)
    ensures Modifiers(ModQuals(ds)) == TopMods(ds)
    decreases |ds|
  {
    if ds != [] && ds[|ds| - 1].Mod? {
      var rest := ds[..|ds| - 1];
      ModifiersAre(rest);
      assert ModQuals(ds)[1..] == ModQuals(rest);
      assert TopMods(ds) == TopMods(rest) + [ds[|ds| - 1]];
    }
  }

  lemma {:induction false} AstItems(ds: seq<Item>, name: string)
    requires Core(ds)
    ensures Items(Ast(ds, name)) == Kept(ds) && NameOf(Ast(ds, name)) == name
    decreases |ds|
  {
    if ds != [] {
      var rest := ds[..|ds| - 1];
      match ds[|ds| - 1]
      case Ptr =>
        AstItems(BelowMods(rest), name);
        ModifiersAre(rest);
      case Array(_) => AstItems(BelowMods(rest), name);
      case Proto(_) => AstItems(rest, name);
    }
  }

  // ----- the printed tokens -----

  function NameTokens(name: string): seq<Piece> { if name == "" then [] else [Ident(name)] }

  function QualTokens(quals: seq<Qualifier>): seq<Piece> {
    if quals == [] then [] else [Qual(quals[0])] + QualTokens(quals[1..])
  }

  function DeclTokens(ds: seq<Item>, name: string): seq<Piece>
    requires Core(ds)
    decreases |ds|
  {
    if ds == [] then NameTokens(name)
    else
      var rest := ds[..|ds| - 1];
      match ds[|ds| - 1]
      case Ptr => [Star] + QualTokens(ModQuals(rest)) + DeclTokens(BelowMods(rest), name)
      case Array(n) => ArrayText(BelowMods(rest), DeclTokens(BelowMods(rest), name)) + [Bracket(n)]
      case Proto(ps) => ProtoText(rest, DeclTokens(rest, name)) + ParamPieces(ps)
  }

  function ArrayText(inner: seq<Item>, text: seq<Piece>): seq<Piece> {
    if inner == [] || inner[|inner| - 1].Array? then text else [LParen] + text + [RParen]
  }

  function ProtoText(inner: seq<Item>, text: seq<Piece>): seq<Piece> {
    if inner == [] then text else [LParen] + text + [RParen]
  }

  lemma TokensOne(p: Piece)
    ensures Tokens([p]) == if p == Space then [] else [p]
  {
    assert [p][1..] == [];
  }

  lemma TokensTwo(p: Piece)
    requires p != Space
    ensures Tokens([Space, p]) == [p]
  {
    assert [Space, p] == [Space] + [p];
    TokensConcat([Space], [p]);
    TokensOne(Space);
    TokensOne(p);
  }

  lemma NameTokensAre(name: string, lastWasPtr: bool)
    ensures Tokens(NamePieces(name, lastWasPtr)) == NameTokens(name)
  {
    TokensOne(Ident(name));
    TokensTwo(Ident(name));
  }

  lemma GroupTokens(text: seq<Piece>)
    ensures Tokens([LParen] + text + [RParen]) == [LParen] + Tokens(text) + [RParen]
  {
    TokensConcat([LParen] + text, [RParen]);
    TokensConcat([LParen], text);
    TokensOne(LParen);
    TokensOne(RParen);
  }

  lemma ParamTokens(ps: string)
    ensures Tokens(ParamPieces(ps)) == ParamPieces(ps)
  {
    GroupTokens(if ps == "" then [] else [List(ps)]);
    TokensOne(List(ps));
  }

  lemma SpacedTokens(text: seq<Piece>)
    ensures Tokens([Space] + text) == Tokens(text)
  {
    TokensConcat([Space], text);
    TokensOne(Space);
  }

  /** A modifier on top of the stack is printed as a qualifier. */
  lemma QualifierPrinted(ds: seq<Item>, name: string, lastWasPtr: bool)
    requires ds != [] && ds[|ds| - 1].Mod?
    ensures Tokens(Pieces(ds, name, lastWasPtr)) == [Qual(ds[|ds| - 1].q)] + Tokens(Pieces(ds[..|ds| - 1], name, false))
  {
    var rest, q := ds[..|ds| - 1], ds[|ds| - 1].q;
    PiecesSimple(ds, name, lastWasPtr);
    hide Pieces, Tokens;
    TokensConcat([Space, Qual(q)], Pieces(rest, name, false));
    TokensTwo(Qual(q));
  }

  /** Whether the last thing printed before the types below the modifiers was a pointer. */
  predicate LastWasPtr(ds: seq<Item>, lastWasPtr: bool) { ModCount(ds) == 0 && lastWasPtr }

  lemma {:induction false} QualifiersPrinted(ds: seq<Item>, name: string, lastWasPtr: bool)
    ensures Tokens(Pieces(ds, name, lastWasPtr)) ==
            QualTokens(ModQuals(ds)) + Tokens(Pieces(BelowMods(ds), name, LastWasPtr(ds, lastWasPtr)))
    decreases |ds|
  {
    hide Pieces, Tokens;
    if ds == [] || !ds[|ds| - 1].Mod? {
      assert BelowMods(ds) == ds;
    } else {
      var rest := ds[..|ds| - 1];
      QualifierPrinted(ds, name, lastWasPtr);
      QualifiersPrinted(rest, name, false);
      assert BelowMods(ds) == BelowMods(rest);
      assert ModQuals(ds)[1..] == ModQuals(rest);
    }
  }

  lemma {:induction false} TokensAre(ds: seq<Item>, name: string, lastWasPtr: bool)
    requires Core(ds)
    ensures Tokens(Pieces(ds, name, lastWasPtr)) == DeclTokens(ds, name)
    decreases |ds|
  {
    if ds == [] {
      NameTokensAre(name, lastWasPtr);
    } else {
      match ds[|ds| - 1]
      case Ptr => PtrTokens(ds, name, lastWasPtr);
      case Array(_) => ArrayTokens(ds, name, lastWasPtr);
      case Proto(_) => ProtoTokens(ds, name, lastWasPtr);
    }
  }

  lemma {:induction false} PtrTokens(ds: seq<Item>, name: string, lastWasPtr: bool)
    requires Core(ds) && ds != [] && ds[|ds| - 1].Ptr?
    ensures Tokens(Pieces(ds, name, lastWasPtr)) == DeclTokens(ds, name)
    decreases |ds|, 0
  {
    var rest := ds[..|ds| - 1];
    PtrUnfold(ds, name, BelowMods(rest), ModQuals(rest));
    BelowShorter(rest);
    hide Pieces, QualTokens, ModQuals, Tokens, BelowMods, DeclTokens, Core, LastWasPtr;
    PtrPieces(ds, name, lastWasPtr);
    QualifiersPrinted(rest, name, true);
    TokensAre(BelowMods(rest), name, LastWasPtr(rest, true));
    Regroup([Star], QualTokens(ModQuals(rest)), DeclTokens(BelowMods(rest), name));
  }

  lemma PtrPieces(ds: seq<Item>, name: string, lastWasPtr: bool)
    requires ds != [] && ds[|ds| - 1].Ptr?
    ensures Tokens(Pieces(ds, name, lastWasPtr)) == [Star] + Tokens(Pieces(ds[..|ds| - 1], name, true))
  {
    PiecesSimple(ds, name, lastWasPtr);
    hide Pieces, Tokens;
    TokensConcat(if lastWasPtr then [Star] else [Space, Star], Pieces(ds[..|ds| - 1], name, true));
    TokensOne(Star);
    TokensTwo(Star);
  }

  lemma ArrayPiecesTokens(inner: seq<Item>, n: nat, text: seq<Piece>, name: string, lastWasPtr: bool)
    ensures Tokens(ArrayPieces(inner, n, text, name, lastWasPtr)) ==
            ArrayText(inner, if inner == [] then NameTokens(name) else Tokens(text)) + [Bracket(n)]
  {
    hide Tokens, NamePieces;
    TokensOne(Bracket(n));
    if inner == [] {
      NameTokensAre(name, lastWasPtr);
      TokensConcat(NamePieces(name, lastWasPtr), [Bracket(n)]);
    } else {
      var space := if name != "" && !lastWasPtr then [Space] else [];
      var body := if inner[|inner| - 1].Array? then text else [LParen] + text + [RParen];
      TokensConcat(space + body, [Bracket(n)]);
      SpacedTokens(body);
      GroupTokens(text);
      assert [] + body == body;
    }
  }

  lemma ProtoPiecesTokens(inner: seq<Item>, ps: string, text: seq<Piece>, name: string, lastWasPtr: bool)
    ensures Tokens(ProtoPieces([], inner, ps, text, name, lastWasPtr)) ==
            ProtoText(inner, if inner == [] then NameTokens(name) else Tokens(text)) + ParamPieces(ps)
  {
    hide Tokens, NamePieces, ParamPieces;
    ParamTokens(ps);
    if inner == [] {
      NameTokensAre(name, lastWasPtr);
      TokensConcat(NamePieces(name, lastWasPtr), ParamPieces(ps));
      assert [] + NamePieces(name, lastWasPtr) == NamePieces(name, lastWasPtr);
    } else {
      var body := [LParen] + text + [RParen];
      assert [] + ([Space, LParen] + text + [RParen]) == [Space] + body;
      TokensConcat([Space] + body, ParamPieces(ps));
      SpacedTokens(body);
      GroupTokens(text);
    }
  }

  lemma {:induction false} ArrayTokens(ds: seq<Item>, name: string, lastWasPtr: bool)
    requires Core(ds) && ds != [] && ds[|ds| - 1].Array?
    ensures Tokens(Pieces(ds, name, lastWasPtr)) == DeclTokens(ds, name)
    decreases |ds|, 0
  {
    var inner, n := BelowMods(ds[..|ds| - 1]), ds[|ds| - 1].n;
    PiecesArray(ds, name, lastWasPtr);
    if inner != [] { TokensAre(inner, name, true); }
    assert DeclTokens(ds, name) == ArrayText(inner, DeclTokens(inner, name)) + [Bracket(n)];
    hide Pieces, Core, BelowMods, Tokens, ArrayPieces, ArrayText;
    ArrayPiecesTokens(inner, n, if inner == [] then [] else Pieces(inner, name, true), name, lastWasPtr);
  }

  lemma {:induction false} ProtoTokens(ds: seq<Item>, name: string, lastWasPtr: bool)
    requires Core(ds) && ds != [] && ds[|ds| - 1].Proto?
    ensures Tokens(Pieces(ds, name, lastWasPtr)) == DeclTokens(ds, name)
    decreases |ds|, 0
  {
    var rest, ps := ds[..|ds| - 1], ds[|ds| - 1].params;
    PiecesProto(ds, name, lastWasPtr);
    assert BelowMods(rest) == rest && ModPieces(rest) == [];
    if rest != [] { TokensAre(rest, name, true); }
    assert DeclTokens(ds, name) == ProtoText(rest, DeclTokens(rest, name)) + ParamPieces(ps);
    hide Pieces, Core, BelowMods, Tokens, ParamPieces, ModPieces, ProtoPieces, ProtoText;
    ProtoPiecesTokens(rest, ps, if rest == [] then [] else Pieces(rest, name, true), name, lastWasPtr);
  }

  // ----- reading the printed tokens -----

  /** What may follow a direct declarator: no name, qualifier, pointer or group. */
  predicate Follows(ts: seq<Piece>) {
    ts == [] || (!ts[0].Ident? && !ts[0].Qual? && ts[0] != Star && !IsGroup(ts))
  }

  /** The end of a declarator. */
  predicate Ends(ts: seq<Piece>) { ts == [] || ts[0] == RParen }

  predicate Opens(p: Piece) { p == Star || p == LParen || p.Bracket? || p.Ident? }

  /** A printed declarator is not empty, and it starts like one. */
  lemma {:induction false} FirstToken(ds: seq<Item>, name: string)
    requires Core(ds)
    ensures ds != [] ==> DeclTokens(ds, name) != []
    ensures DeclTokens(ds, name) != [] ==> Opens(DeclTokens(ds, name)[0])
    ensures ds == [] || !ds[|ds| - 1].Ptr? ==> DeclTokens(ds, name) == [] || DeclTokens(ds, name)[0] != Star
    decreases |ds|
  {
    if ds != [] {
      var rest := ds[..|ds| - 1];
      match ds[|ds| - 1]
      case Ptr => {}
      case Array(_) => if BelowMods(rest) == [] || BelowMods(rest)[|BelowMods(rest)| - 1].Array? { FirstToken(BelowMods(rest), name); }
      case Proto(_) => if rest == [] { FirstToken(rest, name); }
    }
  }

  lemma SuffixArray(d: Declarator, n: nat, more: seq<Piece>)
    ensures ParseSuffix(d, [Bracket(n)] + more) == ParseSuffix(ArrayOf(d, n), more) && Follows([Bracket(n)] + more)
  {
    assert ([Bracket(n)] + more)[1..] == more;
  }

  lemma SuffixProto(d: Declarator, ps: string, more: seq<Piece>)
    ensures ParseSuffix(d, ParamPieces(ps) + more) == ParseSuffix(FunctionOf(d, ps), more) && Follows(ParamPieces(ps) + more)
  {
    var ts := ParamPieces(ps) + more;
    if ps == "" {
      assert ts == [LParen, RParen] + more && ts[2..] == more;
    } else {
      assert ts == [LParen, List(ps), RParen] + more && ts[3..] == more;
    }
  }

  lemma {:induction false} QualsRead(quals: seq<Qualifier>, more: seq<Piece>)
    requires more == [] || !more[0].Qual?
    ensures var ts := QualTokens(quals) + more; QualCount(ts) == |quals| == |QualTokens(quals)| && Quals(ts) == quals
    decreases |quals|
  {
    var ts := QualTokens(quals) + more;
    if quals == [] {
      assert ts == more;
    } else {
      QualsRead(quals[1..], more);
      assert ts[1..] == QualTokens(quals[1..]) + more;
    }
  }

  /** A printed declarator is read back as a whole. */
  lemma {:induction false} DeclRead(ds: seq<Item>, name: string, more: seq<Piece>)
    requires Core(ds) && Ends(more)
    ensures ParseDecl(DeclTokens(ds, name) + more) == Got(Ast(ds, name), more)
    decreases |ds|, 1
  {
    FirstToken(ds, name);
    var ts := DeclTokens(ds, name) + more;
    if ds != [] && ds[|ds| - 1].Ptr? {
      PtrRead(ds, name, more);
    } else {
      DirectRead(ds, name, more);
      assert ts == [] || ts[0] != Star;
      hide DeclTokens, Ast, ParseDirect, Core;
      assert ParseSuffix(Ast(ds, name), more) == Got(Ast(ds, name), more);
    }
  }

  lemma PtrUnfold(ds: seq<Item>, name: string, below: seq<Item>, quals: seq<Qualifier>)
    requires Core(ds) && ds != [] && ds[|ds| - 1].Ptr? && below == BelowMods(ds[..|ds| - 1]) && quals == ModQuals(ds[..|ds| - 1])
    ensures Core(below) && Ast(ds, name) == PointerTo(quals, Ast(below, name))
    ensures DeclTokens(ds, name) == [Star] + QualTokens(quals) + DeclTokens(below, name)
  {
  }

  lemma ReadStar(ts: seq<Piece>, rest: seq<Piece>, tail: seq<Piece>, k: nat, d: Declarator, more: seq<Piece>)
    requires ts == [Star] + rest && QualCount(rest) == k <= |rest| && rest[k..] == tail && ParseDecl(tail) == Got(d, more)
    ensures ParseDecl(ts) == Got(PointerTo(Quals(rest), d), more)
  {
    assert ts[1..] == rest;
  }

  lemma {:induction false} PtrRead(ds: seq<Item>, name: string, more: seq<Piece>)
    requires Core(ds) && Ends(more) && ds != [] && ds[|ds| - 1].Ptr?
    ensures ParseDecl(DeclTokens(ds, name) + more) == Got(Ast(ds, name), more)
    decreases |ds|, 0
  {
    var rest := ds[..|ds| - 1];
    var below, quals := BelowMods(rest), ModQuals(rest);
    hide DeclTokens, Ast, ParseDecl, Core, QualTokens, Quals, QualCount, BelowMods, ModQuals;
    PtrUnfold(ds, name, below, quals);
    var text, tail := DeclTokens(below, name), DeclTokens(below, name) + more;
    FirstToken(below, name);
    assert tail == [] || !tail[0].Qual?;
    BelowShorter(rest);
    DeclRead(below, name, more);
    QualsRead(quals, tail);
    var q := QualTokens(quals);
    Regroup([Star] + q, text, more);
    Regroup([Star], q, tail);
    assert (q + tail)[|q|..] == tail;
    ReadStar(DeclTokens(ds, name) + more, q + tail, tail, |quals|, Ast(below, name), more);
  }

  lemma BelowShorter(ds: seq<Item>)
    ensures |BelowMods(ds)| <= |ds|
  {
  }

  lemma ReadGroup(ts: seq<Piece>, text: seq<Piece>, more: seq<Piece>, d: Declarator)
    requires ts == [LParen] + (text + ([RParen] + more)) && text != [] && Opens(text[0])
    requires ParseDecl(text + ([RParen] + more)) == Got(d, [RParen] + more)
    ensures ParseDirect(ts) == ParseSuffix(d, more)
  {
    hide ParseDecl, ParseSuffix;
    var tail := [RParen] + more;
    assert ts[1..] == text + tail && ts[1] == text[0] && tail[1..] == more;
  }

  lemma {:induction false} GroupRead(ds: seq<Item>, name: string, more: seq<Piece>)
    requires Core(ds) && ds != []
    ensures ParseDirect([LParen] + DeclTokens(ds, name) + [RParen] + more) == ParseSuffix(Ast(ds, name), more)
    decreases |ds|, 2
  {
    hide DeclTokens, Ast, ParseDecl, ParseDirect, ParseSuffix, Core;
    FirstToken(ds, name);
    var text, tail := DeclTokens(ds, name), [RParen] + more;
    DeclRead(ds, name, tail);
    Regroup([LParen] + text, [RParen], more);
    Regroup([LParen], text, tail);
    ReadGroup([LParen] + text + [RParen] + more, text, more, Ast(ds, name));
  }

  /** A printed name, array or function is a direct declarator, whose suffixes go on with what follows. */
  lemma {:induction false} DirectRead(ds: seq<Item>, name: string, more: seq<Piece>)
    requires Core(ds) && Follows(more) && (ds != [] ==> !ds[|ds| - 1].Ptr?)
    ensures ParseDirect(DeclTokens(ds, name) + more) == ParseSuffix(Ast(ds, name), more)
    decreases |ds|, 0
  {
    if ds == [] {
      var ts := NameTokens(name) + more;
      if name == "" { assert ts == more; } else { assert ts[1..] == more; }
    } else {
      var rest := ds[..|ds| - 1];
      match ds[|ds| - 1]
      case Array(n) => ArrayRead(ds, BelowMods(rest), n, name, more);
      case Proto(ps) => ProtoRead(ds, rest, ps, name, more);
    }
  }

  lemma Regroup(a: seq<Piece>, b: seq<Piece>, c: seq<Piece>)
    ensures a + b + c == a + (b + c)
  {
  }

  lemma ArrayUnfold(ds: seq<Item>, inner: seq<Item>, n: nat, name: string)
    requires Core(ds) && ds != [] && ds[|ds| - 1] == Array(n) && inner == BelowMods(ds[..|ds| - 1])
    ensures Core(inner) && Ast(ds, name) == ArrayOf(Ast(inner, name), n)
    ensures DeclTokens(ds, name) == ArrayText(inner, DeclTokens(inner, name)) + [Bracket(n)]
  {
  }

  lemma ProtoUnfold(ds: seq<Item>, rest: seq<Item>, ps: string, name: string)
    requires Core(ds) && ds != [] && ds[|ds| - 1] == Proto(ps) && rest == ds[..|ds| - 1]
    ensures Core(rest) && Ast(ds, name) == FunctionOf(Ast(rest, name), ps)
    ensures DeclTokens(ds, name) == ProtoText(rest, DeclTokens(rest, name)) + ParamPieces(ps)
  {
  }

  lemma {:induction false} ArrayRead(ds: seq<Item>, inner: seq<Item>, n: nat, name: string, more: seq<Piece>)
    requires Core(ds) && Follows(more) && ds != [] && ds[|ds| - 1] == Array(n) && inner == BelowMods(ds[..|ds| - 1])
    ensures ParseDirect(DeclTokens(ds, name) + more) == ParseSuffix(Ast(ds, name), more)
    decreases |inner|, 3
  {
    hide DeclTokens, Ast, ParseDirect, ParseSuffix, Core, BelowMods, Follows;
    ArrayUnfold(ds, inner, n, name);
    SuffixArray(Ast(inner, name), n, more);
    var text, tail := DeclTokens(inner, name), [Bracket(n)] + more;
    if inner == [] || inner[|inner| - 1].Array? {
      DirectRead(inner, name, tail);
      Regroup(text, [Bracket(n)], more);
    } else {
      GroupRead(inner, name, tail);
      Regroup([LParen] + text + [RParen], [Bracket(n)], more);
    }
  }

  lemma {:induction false} ProtoRead(ds: seq<Item>, rest: seq<Item>, ps: string, name: string, more: seq<Piece>)
    requires Core(ds) && Follows(more) && ds != [] && ds[|ds| - 1] == Proto(ps) && rest == ds[..|ds| - 1]
    ensures ParseDirect(DeclTokens(ds, name) + more) == ParseSuffix(Ast(ds, name), more)
    decreases |rest|, 3
  {
    hide DeclTokens, Ast, ParseDirect, ParseSuffix, Core, Follows, ParamPieces;
    ProtoUnfold(ds, rest, ps, name);
    SuffixProto(Ast(rest, name), ps, more);
    var text, tail := DeclTokens(rest, name), ParamPieces(ps) + more;
    if rest == [] {
      DirectRead(rest, name, tail);
      Regroup(text, ParamPieces(ps), more);
    } else {
      GroupRead(rest, name, tail);
      Regroup([LParen] + text + [RParen], ParamPieces(ps), more);
    }
  }

  // ----- no two words run together -----

  predicate IsWord(p: Piece) { p.Qual? || p.BaseName? || p.Ident? }

  predicate Joins(a: Piece, b: Piece) { IsWord(a) && IsWord(b) }

  /** Words are separated, so a lexer finds the same words again. */
  ghost predicate Separated(ps: seq<Piece>) {
    forall i :: 0 <= i < |ps| - 1 ==> !Joins(ps[i], ps[i + 1])
  }

  lemma SeparatedConcat(a: seq<Piece>, b: seq<Piece>)
    requires Separated(a) && Separated(b) && (a != [] && b != [] ==> !Joins(a[|a| - 1], b[0]))
    ensures Separated(a + b)
  {
    var s := a + b;
    forall i | 0 <= i < |s| - 1 ensures !Joins(s[i], s[i + 1]) {
      if i + 1 < |a| { assert !Joins(a[i], a[i + 1]); }
      else if i >= |a| { assert !Joins(b[i - |a|], b[i - |a| + 1]); }
    }
  }

  lemma SeparatedAround(a: seq<Piece>, b: seq<Piece>, c: seq<Piece>)
    requires Separated(a) && Separated(b) && Separated(c)
    requires a != [] ==> !IsWord(a[|a| - 1])
    requires c != [] ==> !IsWord(c[0])
    ensures Separated(a + b + c)
  {
    SeparatedConcat(a, b);
    SeparatedConcat(a + b, c);
  }

  /** A printed declarator starts with a word only if that is the name, right after a pointer. */
  ghost predicate Clean(ps: seq<Piece>, name: string, lastWasPtr: bool) {
    Separated(ps) && (ps != [] && IsWord(ps[0]) ==> lastWasPtr && name != "")
  }

  lemma CleanName(name: string, lastWasPtr: bool)
    ensures Clean(NamePieces(name, lastWasPtr), name, lastWasPtr)
  {
  }

  lemma ParamsSeparated(ps: string)
    ensures Separated(ParamPieces(ps)) && ParamPieces(ps)[0] == LParen
  {
  }

  lemma CleanArray(inner: seq<Item>, n: nat, text: seq<Piece>, name: string, lastWasPtr: bool)
    requires inner != [] ==> Clean(text, name, true)
    ensures Clean(ArrayPieces(inner, n, text, name, lastWasPtr), name, lastWasPtr)
  {
    if inner == [] {
      CleanName(name, lastWasPtr);
      SeparatedConcat(NamePieces(name, lastWasPtr), [Bracket(n)]);
    } else {
      var space := if name != "" && !lastWasPtr then [Space] else [];
      SeparatedAround([LParen], text, [RParen]);
      var body := if inner[|inner| - 1].Array? then text else [LParen] + text + [RParen];
      SeparatedAround(space, body, [Bracket(n)]);
    }
  }

  lemma CleanProto(inner: seq<Item>, ps: string, text: seq<Piece>, name: string, lastWasPtr: bool)
    requires inner != [] ==> Clean(text, name, true)
    ensures Clean(ProtoPieces([], inner, ps, text, name, lastWasPtr), name, lastWasPtr)
  {
    CleanName(name, lastWasPtr);
    ParamsSeparated(ps);
    hide ParamPieces, NamePieces;
    if inner != [] { SeparatedAround([Space, LParen], text, [RParen]); }
    var body := if inner == [] then NamePieces(name, lastWasPtr) else [Space, LParen] + text + [RParen];
    assert [] + body == body;
    SeparatedConcat(body, ParamPieces(ps));
  }

  lemma {:induction false} DeclSeparated(ds: seq<Item>, name: string, lastWasPtr: bool)
    requires Core(BelowMods(ds))
    ensures Clean(Pieces(ds, name, lastWasPtr), name, lastWasPtr)
    decreases |ds|
  {
    if ds == [] {
      CleanName(name, lastWasPtr);
    } else {
      var rest, top := ds[..|ds| - 1], ds[|ds| - 1];
      if top.Mod? {
        assert BelowMods(ds) == BelowMods(rest);
        DeclSeparated(rest, name, false);
        PiecesSimple(ds, name, lastWasPtr);
        hide Pieces;
        SeparatedConcat([Space, Qual(top.q)], Pieces(rest, name, false));
      } else {
        assert BelowMods(ds) == ds;
        CoreSeparated(ds, name, lastWasPtr);
      }
    }
  }

  lemma {:induction false} CoreSeparated(ds: seq<Item>, name: string, lastWasPtr: bool)
    requires Core(ds) && ds != []
    ensures Clean(Pieces(ds, name, lastWasPtr), name, lastWasPtr)
    decreases |ds|, 0
  {
    var rest := ds[..|ds| - 1];
    match ds[|ds| - 1]
    case Ptr =>
      DeclSeparated(rest, name, true);
      PiecesSimple(ds, name, lastWasPtr);
      hide Pieces;
      SeparatedConcat(if lastWasPtr then [Star] else [Space, Star], Pieces(rest, name, true));
    case Array(n) =>
      var inner := BelowMods(rest);
      PiecesArray(ds, name, lastWasPtr);
      BelowTwice(rest);
      if inner != [] { DeclSeparated(inner, name, true); }
      hide Pieces;
      CleanArray(inner, n, if inner == [] then [] else Pieces(inner, name, true), name, lastWasPtr);
    case Proto(ps) =>
      PiecesProto(ds, name, lastWasPtr);
      assert BelowMods(rest) == rest && ModPieces(rest) == [];
      if rest != [] { DeclSeparated(rest, name, true); }
      hide Pieces;
      CleanProto(rest, ps, if rest == [] then [] else Pieces(rest, name, true), name, lastWasPtr);
  }

  lemma {:induction false} BelowTwice(ds: seq<Item>)
    ensures BelowMods(BelowMods(ds)) == BelowMods(ds) && (BelowMods(ds) != [] ==> !BelowMods(ds)[|BelowMods(ds)| - 1].Mod?)
    decreases |ds|
  {
    if ds != [] && ds[|ds| - 1].Mod? {
      BelowTwice(ds[..|ds| - 1]);
      assert BelowMods(ds) == BelowMods(ds[..|ds| - 1]);
    } else {
      assert BelowMods(ds) == ds;
    }
  }

  lemma {:induction false} ModsSeparated(ds: seq<Item>)
    ensures Separated(ModPieces(ds)) && (ModPieces(ds) != [] ==> ModPieces(ds)[|ModPieces(ds)| - 1] == Space)
    decreases |ds|
  {
    if ds != [] && ds[|ds| - 1].Mod? {
      ModsSeparated(ds[..|ds| - 1]);
      SeparatedConcat([Qual(ds[|ds| - 1].q), Space], ModPieces(ds[..|ds| - 1]));
    }
  }

  // ----- whole declarations -----

  /** A chain of a declaration: one base type at the end, and no modifier directly on a function. */
  ghost predicate IsChain(ds: seq<Item>) {
    && ds != [] && ds[|ds| - 1].Base?
    && forall i :: 0 <= i < |ds| - 1 ==> !ds[i].Base? && !ModifiedProto(ds[i], ds[i + 1])
  }

  predicate ModifiedProto(a: Item, b: Item) { a.Mod? && b.Proto? }

  /** The chain as it is printed: modifiers directly on arrays are left out. */
  function Printed(ds: seq<Item>): seq<Item>
    requires ds != [] && Core(BelowMods(ds[..|ds| - 1]))
  {
    var body := ds[..|ds| - 1];
    Kept(BelowMods(body)) + TopMods(body) + [ds[|ds| - 1]]
  }

  lemma {:induction false} PrefixIsCore(ds: seq<Item>, n: nat)
    requires IsChain(ds) && n < |ds|
    ensures Core(BelowMods(ds[..n]))
    decreases n
  {
    var p := ds[..n];
    if n > 0 {
      assert p[..n - 1] == ds[..n - 1] && p[n - 1] == ds[n - 1];
      PrefixIsCore(ds, n - 1);
      if p[n - 1].Mod? {
        assert BelowMods(p) == BelowMods(ds[..n - 1]);
      } else {
        assert BelowMods(p) == p;
        if n > 1 { assert !ModifiedProto(ds[n - 2], ds[n - 2 + 1]); }
        assert p[n - 1].Proto? ==> ModCount(ds[..n - 1]) == 0 && BelowMods(ds[..n - 1]) == ds[..n - 1];
      }
    }
  }

  lemma BaseTokens(ds: seq<Item>, name: string)
    requires ds != [] && ds[|ds| - 1].Base? && Core(BelowMods(ds[..|ds| - 1]))
    ensures var body := ds[..|ds| - 1];
      Tokens(Pieces(ds, name, true)) == QualTokens(ModQuals(body)) + [BaseName(ds[|ds| - 1].name)] + DeclTokens(BelowMods(body), name)
  {
    var body, b := ds[..|ds| - 1], ds[|ds| - 1].name;
    PiecesSimple(ds, name, true);
    TokensAre(BelowMods(body), name, false);
    ModPieceTokens(body);
    TokensOne(BaseName(b));
    hide Pieces, Tokens, DeclTokens, QualTokens, ModQuals, BelowMods, ModPieces, Core;
    TokensConcat(ModPieces(body) + [BaseName(b)], Pieces(BelowMods(body), name, false));
    TokensConcat(ModPieces(body), [BaseName(b)]);
  }

  lemma {:induction false} ModPieceTokens(ds: seq<Item>)
    ensures Tokens(ModPieces(ds)) == QualTokens(ModQuals(ds))
    decreases |ds|
  {
    if ds != [] && ds[|ds| - 1].Mod? {
      var q, rest := ds[|ds| - 1].q, ds[..|ds| - 1];
      ModPieceTokens(rest);
      TokensConcat([Qual(q), Space], ModPieces(rest));
      TokensConcat([Qual(q)], [Space]);
      assert [Qual(q), Space] == [Qual(q)] + [Space];
      TokensOne(Qual(q));
      TokensOne(Space);
      assert ModQuals(ds)[1..] == ModQuals(rest);
    }
  }

  /** Reading what is printed gives back the name and the chain, except for modifiers directly on arrays. */
  lemma RoundTrip(ds: seq<Item>, name: string)
    requires IsChain(ds)
    ensures Core(BelowMods(ds[..|ds| - 1]))
    ensures ParseDeclaration(Tokens(Pieces(ds, name, true))) == Declares(name, Printed(ds))
    ensures Separated(Pieces(ds, name, true))
  {
    PrefixIsCore(ds, |ds| - 1);
    BaseRead(ds, name);
    BaseSeparated(ds, name);
  }

  lemma BaseRead(ds: seq<Item>, name: string)
    requires ds != [] && ds[|ds| - 1].Base? && Core(BelowMods(ds[..|ds| - 1]))
    ensures ParseDeclaration(Tokens(Pieces(ds, name, true))) == Declares(name, Printed(ds))
  {
    var body, b := ds[..|ds| - 1], ds[|ds| - 1].name;
    hide Pieces, Tokens, DeclTokens, ModQuals, BelowMods, Core, ParseDecl, ParseDeclaration, Ast, Kept, Items, NameOf, TopMods, QualTokens, Quals, QualCount;
    var below, quals := BelowMods(body), ModQuals(body);
    BaseTokens(ds, name);
    AstItems(below, name);
    ModifiersAre(body);
    var text := DeclTokens(below, name);
    DeclRead(below, name, []);
    assert text + [] == text;
    Regroup(QualTokens(quals), [BaseName(b)], text);
    ReadDeclaration(quals, b, text, Ast(below, name));
  }

  lemma ReadDeclaration(quals: seq<Qualifier>, b: string, text: seq<Piece>, d: Declarator)
    requires ParseDecl(text) == Got(d, [])
    ensures ParseDeclaration(QualTokens(quals) + ([BaseName(b)] + text)) == Declares(NameOf(d), Items(d) + Modifiers(quals) + [Base(b)])
  {
    hide ParseDecl, Items, NameOf, QualTokens, Quals, QualCount, Modifiers;
    var tail := [BaseName(b)] + text;
    QualsRead(quals, tail);
    assert (QualTokens(quals) + tail)[|quals|..] == tail && tail[1..] == text;
  }

  lemma BaseSeparated(ds: seq<Item>, name: string)
    requires ds != [] && ds[|ds| - 1].Base? && Core(BelowMods(ds[..|ds| - 1]))
    ensures Separated(Pieces(ds, name, true))
  {
    var body, b := ds[..|ds| - 1], ds[|ds| - 1].name;
    PiecesSimple(ds, name, true);
    BelowTwice(body);
    DeclSeparated(BelowMods(body), name, false);
    ModsSeparated(body);
    hide Pieces, ModPieces, Core, BelowMods;
    SeparatedAround(ModPieces(body), [BaseName(b)], Pieces(BelowMods(body), name, false));
  }

  // ----- exactly which chains come back -----

  predicate Qualifies(a: Item, b: Item) { a.Mod? ==> b.Mod? || b.Ptr? || b.Base? }

  /** Modifiers only on pointers and base types: all that C declarators can express. */
  ghost predicate Expressible(ds: seq<Item>) {
    forall i :: 0 <= i < |ds| - 1 ==> Qualifies(ds[i], ds[i + 1])
  }

  lemma ExpressibleConcat(a: seq<Item>, b: seq<Item>)
    requires Expressible(a) && Expressible(b) && (a != [] && b != [] ==> Qualifies(a[|a| - 1], b[0]))
    ensures Expressible(a + b)
  {
    var s := a + b;
    forall i | 0 <= i < |s| - 1 ensures Qualifies(s[i], s[i + 1]) {
      if i + 1 < |a| { assert Qualifies(a[i], a[i + 1]); }
      else if i >= |a| { assert Qualifies(b[i - |a|], b[i - |a| + 1]); }
    }
  }

  lemma {:induction false} ModifiersExpressible(quals: seq<Qualifier>)
    ensures Expressible(Modifiers(quals)) && forall i :: 0 <= i < |Modifiers(quals)| ==> Modifiers(quals)[i].Mod?
    decreases |quals|
  {
    if quals != [] {
      ModifiersExpressible(quals[1..]);
      ExpressibleConcat(Modifiers(quals[1..]), [Mod(quals[0])]);
    }
  }

  /** Whatever is read is expressible. */
  lemma {:induction false} ItemsExpressible(d: Declarator)
    ensures Expressible(Items(d)) && (Items(d) != [] ==> !Items(d)[|Items(d)| - 1].Mod?)
    decreases d
  {
    match d
    case Name(_) => {}
    case PointerTo(quals, e) =>
      ItemsExpressible(e);
      QualifiedExpressible(Items(e), quals, Ptr);
    case ArrayOf(e, n) =>
      ItemsExpressible(e);
      ExpressibleConcat(Items(e), [Array(n)]);
    case FunctionOf(e, ps) =>
      ItemsExpressible(e);
      ExpressibleConcat(Items(e), [Proto(ps)]);
  }

  lemma QualifiedExpressible(items: seq<Item>, quals: seq<Qualifier>, last: Item)
    requires Expressible(items) && (items != [] ==> !items[|items| - 1].Mod?) && (last.Ptr? || last.Base?)
    ensures Expressible(items + Modifiers(quals) + [last])
  {
    ModifiersExpressible(quals);
    hide Modifiers;
    ExpressibleConcat(items, Modifiers(quals));
    ExpressibleConcat(items + Modifiers(quals), [last]);
  }

  lemma ReadExpressible(ts: seq<Piece>)
    ensures ParseDeclaration(ts).Declares? ==> Expressible(ParseDeclaration(ts).chain)
  {
    var rest := ts[QualCount(ts)..];
    hide ParseDecl, Items, Modifiers, Quals, QualCount;
    if rest != [] && rest[0].BaseName? {
      var p := ParseDecl(rest[1..]);
      if p.Got? {
        ItemsExpressible(p.d);
        QualifiedExpressible(Items(p.d), Quals(ts), Base(rest[0].name));
      }
    }
  }

  lemma ExpressiblePrefix(ds: seq<Item>, n: nat)
    requires Expressible(ds) && n <= |ds|
    ensures Expressible(ds[..n])
  {
    var p := ds[..n];
    forall i | 0 <= i < |p| - 1 ensures Qualifies(p[i], p[i + 1]) { assert Qualifies(ds[i], ds[i + 1]); }
  }

  lemma NotModified(ds: seq<Item>)
    requires Expressible(ds) && ds != [] && (ds[|ds| - 1].Array? || ds[|ds| - 1].Proto?)
    ensures BelowMods(ds[..|ds| - 1]) == ds[..|ds| - 1]
  {
    var n := |ds| - 2;
    if n >= 0 { assert Qualifies(ds[n], ds[n + 1]); }
  }

  lemma BelowPrefix(ds: seq<Item>)
    ensures BelowMods(ds) + TopMods(ds) == ds
  {
  }

  lemma KeptUnfold(ds: seq<Item>, rest: seq<Item>, below: seq<Item>)
    requires Core(ds) && ds != [] && rest == ds[..|ds| - 1] && below == BelowMods(rest)
    ensures Core(below) && ds == rest + [ds[|ds| - 1]]
    ensures ds[|ds| - 1].Ptr? || ds[|ds| - 1].Array? || ds[|ds| - 1].Proto?
    ensures ds[|ds| - 1].Ptr? ==> Kept(ds) == Kept(below) + TopMods(rest) + [Ptr]
    ensures !ds[|ds| - 1].Ptr? ==> Kept(ds) == Kept(below) + [ds[|ds| - 1]]
  {
    if ds[|ds| - 1].Proto? { assert below == rest; }
  }

  lemma {:induction false} AllKept(ds: seq<Item>)
    requires Core(ds) && Expressible(ds)
    ensures Kept(ds) == ds
    decreases |ds|
  {
    if ds != [] {
      var rest := ds[..|ds| - 1];
      var below := BelowMods(rest);
      assert below == ds[..|below|];
      ExpressiblePrefix(ds, |below|);
      BelowPrefix(rest);
      hide Expressible, BelowMods, TopMods, Kept, Core;
      KeptUnfold(ds, rest, below);
      if !ds[|ds| - 1].Ptr? { NotModified(ds); }
      AllKept(below);
    }
  }

  /** A declaration comes back as it was exactly when all its modifiers are on pointers or on the base type. */
  lemma RoundTripExactly(ds: seq<Item>, name: string)
    requires ds != [] && ds[|ds| - 1].Base? && forall i :: 0 <= i < |ds| - 1 ==> !ds[i].Base?
    ensures ParseDeclaration(Tokens(Pieces(ds, name, true))) == Declares(name, ds) <==> Expressible(ds)
  {
    hide Pieces, Tokens, ParseDeclaration;
    ReadExpressible(Tokens(Pieces(ds, name, true)));
    if Expressible(ds) {
      forall i | 0 <= i < |ds| - 1 ensures !ModifiedProto(ds[i], ds[i + 1]) { assert Qualifies(ds[i], ds[i + 1]); }
      assert IsChain(ds);
      RoundTrip(ds, name);
      AllPrinted(ds);
    }
  }

  lemma AllPrinted(ds: seq<Item>)
    requires ds != [] && Core(BelowMods(ds[..|ds| - 1])) && Expressible(ds)
    ensures Printed(ds) == ds
  {
    hide Core, Expressible;
    var body := ds[..|ds| - 1];
    var below := BelowMods(body);
    assert below == ds[..|below|];
    ExpressiblePrefix(ds, |below|);
    AllKept(below);
    BelowPrefix(body);
  }

  /** A modifier on a function that returns a base type runs into the base type's name. */
  lemma ModifiedFunctionJoins(q: Qualifier, ps: string, b: string, name: string)
    ensures !Separated(Pieces([Mod(q), Proto(ps), Base(b)], name, true))
  {
    var ds := [Mod(q), Proto(ps), Base(b)];
    var rest := [Mod(q), Proto(ps)];
    assert ds[..2] == rest && rest[..1] == [Mod(q)] && [Mod(q)][..0] == [];
    PiecesSimple(ds, name, true);
    assert BelowMods(rest) == rest;
    PiecesProto(rest, name, false);
    var tail := Pieces(rest, name, false);
    assert ModPieces([Mod(q)]) == [Qual(q), Space];
    assert tail[0] == Qual(q);
    var ps' := Pieces(ds, name, true);
    assert ModPieces(rest) == [];
    assert ps' == [BaseName(b)] + tail;
    assert Joins(ps'[0], ps'[0 + 1]);
  }

  /** Prints a whole declaration; it can be read back whenever C can express the type. */
  method PrintDeclaration(decls: seq<Item>, name: string) returns (out: seq<Piece>)
    ensures IsChain(decls) ==> Core(BelowMods(decls[..|decls| - 1])) && Separated(out)
    ensures IsChain(decls) ==> ParseDeclaration(Tokens(out)) == Declares(name, Printed(decls))
    ensures IsChain(decls) && Expressible(decls) ==> ParseDeclaration(Tokens(out)) == Declares(name, decls)
  {
    hide Pieces, Tokens, ParseDeclaration, Core, Printed, Separated, Expressible;
    var printer := new Printer(decls);
    printer.EmitTypeChain(name);
    out := printer.out;
    assert decls[..|decls|] == decls && out == Pieces(decls, name, true);
    if IsChain(decls) {
      RoundTrip(decls, name);
      RoundTripExactly(decls, name);
    }
  }
}
