/** The element tables of the HTML compactor, after the HTML 3.2 document type definition
    (W3C REC-html32). */
module HtmlTables {
  import opened Options

  datatype Content = ElementContent | MixedContent | LiteralContent

  const A: nat := 0
  const ADDRESS: nat := 1
  const APPLET: nat := 2
  const AREA: nat := 3
  const B: nat := 4
  const BASE: nat := 5
  const BIG: nat := 6
  const BLOCKQUOTE: nat := 7
  const BODY: nat := 8
  const BR: nat := 9
  const CAPTION: nat := 10
  const CENTER: nat := 11
  const CITE: nat := 12
  const CODE: nat := 13
  const DD: nat := 14
  const DFN: nat := 15
  const DIR: nat := 16
  const DIV: nat := 17
  const DL: nat := 18
  const DT: nat := 19
  const EM: nat := 20
  const FONT: nat := 21
  const FORM: nat := 22
  const H1: nat := 23
  const H2: nat := 24
  const H3: nat := 25
  const H4: nat := 26
  const H5: nat := 27
  const H6: nat := 28
  const HEAD: nat := 29
  const HR: nat := 30
  const HTML: nat := 31
  const I: nat := 32
  const IMG: nat := 33
  const INPUT: nat := 34
  const ISINDEX: nat := 35
  const KBD: nat := 36
  const LI: nat := 37
  const LINK: nat := 38
  const MAP: nat := 39
  const MENU: nat := 40
  const META: nat := 41
  const OL: nat := 42
  const OPTION: nat := 43
  const P: nat := 44
  const PARAM: nat := 45
  const PRE: nat := 46
  const SAMP: nat := 47
  const SCRIPT: nat := 48
  const SELECT: nat := 49
  const SMALL: nat := 50
  const STRIKE: nat := 51
  const STRONG: nat := 52
  const STYLE: nat := 53
  const SUB: nat := 54
  const SUP: nat := 55
  const TABLE: nat := 56
  const TD: nat := 57
  const TEXTAREA: nat := 58
  const TH: nat := 59
  const TITLE: nat := 60
  const TR: nat := 61
  const TT: nat := 62
  const U: nat := 63
  const UL: nat := 64
  const VAR: nat := 65
  const DOCUMENT: nat := 66

  /** The shared content models. */
  datatype Kind =
    | TextModel | AddressModel | AppletModel | NoModel | BodyModel | FlowModel | LiModel | DlModel
    | HeadModel | HtmlModel | MapModel | SelectModel | TableModel | TrModel | DocumentModel

  const HEADINGS: seq<nat> := [H1, H2, H3, H4, H5, H6]
  const FONTS: seq<nat> := [TT, I, B, U, STRIKE, BIG, SMALL, SUB, SUP]
  const PHRASES: seq<nat> := [EM, STRONG, DFN, CODE, SAMP, KBD, VAR, CITE]
  const SPECIALS: seq<nat> := [A, IMG, APPLET, FONT, BR, SCRIPT, MAP, INPUT, SELECT, TEXTAREA]
  const BLOCKS: seq<nat> :=
    [P, UL, OL, DIR, MENU, PRE, DL, DIV, CENTER, BLOCKQUOTE, FORM, ISINDEX, HR, TABLE]

  function TextMembers(): seq<nat> { FONTS + PHRASES + SPECIALS }

  function Members(k: Kind): seq<nat> {
    match k
    case TextModel => TextMembers()
    case AddressModel => TextMembers() + [P]
    case AppletModel => TextMembers() + [PARAM]
    case NoModel => []
    case BodyModel => HEADINGS + TextMembers() + BLOCKS + [ADDRESS]
    case FlowModel => TextMembers() + BLOCKS
    case LiModel => [LI]
    case DlModel => [DT, DD]
    case HeadModel => [TITLE, ISINDEX, BASE, SCRIPT, STYLE, META, LINK]
    case HtmlModel => [HEAD, BODY]
    case MapModel => [AREA]
    case SelectModel => [OPTION]
    case TableModel => [CAPTION, TR]
    case TrModel => [TH, TD]
    case DocumentModel => [HTML]
  }

  datatype Element = Element(name: string, attributes: seq<string>, kind: Kind, content: Content,
                             startOptional: bool, endOptional: bool)

  const A_ATTR: seq<string> := ["HREF", "NAME", "REL", "TITLE"]
  const NO_ATTR: seq<string> := []
  const APPLET_ATTR: seq<string> := ["ALT", "ALIGN", "CODE", "CODEBASE", "HEIGHT", "HSPACE", "NAME", "VSPACE", "WIDTH"]
  const AREA_ATTR: seq<string> := ["ALT", "COORDS", "HREF", "NOHREF", "SHAPE"]
  const BASE_ATTR: seq<string> := ["HREF"]
  const BODY_ATTR: seq<string> := ["ALINK", "BACKGROUND", "BGCOLOR", "LINK", "TEXT", "VLINK"]
  const BR_ATTR: seq<string> := ["CLEAR"]
  const ALIGN_ATTR: seq<string> := ["ALIGN"]
  const COMPACT_ATTR: seq<string> := ["COMPACT"]
  const FONT_ATTR: seq<string> := ["COLOR", "SIZE"]
  const FORM_ATTR: seq<string> := ["ACTION", "ENCTYPE", "METHOD"]
  const HR_ATTR: seq<string> := ["ALIGN", "NOSHADE", "SIZE", "WIDTH"]
  const HTML_ATTR: seq<string> := ["VERSION"]
  const IMG_ATTR: seq<string> := ["ALIGN", "ALT", "BORDER", "HEIGHT", "HSPACE", "ISMAP", "SRC", "USEMAP", "VSPACE", "WIDTH"]
  const INPUT_ATTR: seq<string> := ["ALIGN", "CHECKED", "MAXLENGTH", "NAME", "SIZE", "SRC", "TYPE", "VALUE"]
  const ISINDEX_ATTR: seq<string> := ["PROMPT"]
  const LI_ATTR: seq<string> := ["TYPE", "VALUE"]
  const LINK_ATTR: seq<string> := ["HREF", "ID", "REL", "REV", "TITLE"]
  const MAP_ATTR: seq<string> := ["NAME"]
  const META_ATTR: seq<string> := ["CONTENT", "HTTP-EQUIV", "NAME"]
  const OL_ATTR: seq<string> := ["COMPACT", "START", "TYPE"]
  const OPTION_ATTR: seq<string> := ["SELECTED", "VALUE"]
  const PARAM_ATTR: seq<string> := ["NAME", "VALUE"]
  const PRE_ATTR: seq<string> := ["WIDTH"]
  const SELECT_ATTR: seq<string> := ["MULTIPLE", "NAME", "SIZE"]
  const TABLE_ATTR: seq<string> := ["ALIGN", "BORDER", "CELLPADDING", "CELLSPACING", "DUMMY", "WIDTH"]
  const THTD_ATTR: seq<string> := ["ALIGN", "COLSPAN", "HEIGHT", "NOWRAP", "ROWSPAN", "VALIGN", "WIDTH"]
  const TEXTAREA_ATTR: seq<string> := ["COLS", "NAME", "ROWS"]
  const TR_ATTR: seq<string> := ["ALIGN", "VALIGN"]
  const UL_ATTR: seq<string> := ["COMPACT", "TYPE"]

  /** The table row of an element; the last row is the start element. */
  function Row(e: nat): Element {
    match e
    case 0 => Element("A", A_ATTR, TextModel, MixedContent, false, false)
    case 1 => Element("ADDRESS", NO_ATTR, AddressModel, MixedContent, false, false)
    case 2 => Element("APPLET", APPLET_ATTR, AppletModel, ElementContent, false, false)
    case 3 => Element("AREA", AREA_ATTR, NoModel, ElementContent, false, true)
    case 4 => Element("B", NO_ATTR, TextModel, MixedContent, false, false)
    case 5 => Element("BASE", BASE_ATTR, NoModel, ElementContent, false, true)
    case 6 => Element("BIG", NO_ATTR, TextModel, MixedContent, false, false)
    case 7 => Element("BLOCKQUOTE", NO_ATTR, BodyModel, MixedContent, false, false)
    case 8 => Element("BODY", BODY_ATTR, BodyModel, MixedContent, true, true)
    case 9 => Element("BR", BR_ATTR, NoModel, ElementContent, false, true)
    case 10 => Element("CAPTION", ALIGN_ATTR, TextModel, MixedContent, false, false)
    case 11 => Element("CENTER", NO_ATTR, BodyModel, MixedContent, false, false)
    case 12 => Element("CITE", NO_ATTR, TextModel, MixedContent, false, false)
    case 13 => Element("CODE", NO_ATTR, TextModel, MixedContent, false, false)
    case 14 => Element("DD", NO_ATTR, FlowModel, MixedContent, false, true)
    case 15 => Element("DFN", NO_ATTR, TextModel, MixedContent, false, false)
    case 16 => Element("DIR", COMPACT_ATTR, LiModel, ElementContent, false, false)
    case 17 => Element("DIV", ALIGN_ATTR, BodyModel, MixedContent, false, false)
    case 18 => Element("DL", COMPACT_ATTR, DlModel, ElementContent, false, false)
    case 19 => Element("DT", NO_ATTR, TextModel, MixedContent, false, true)
    case 20 => Element("EM", NO_ATTR, TextModel, MixedContent, false, false)
    case 21 => Element("FONT", FONT_ATTR, TextModel, MixedContent, false, false)
    case 22 => Element("FORM", FORM_ATTR, BodyModel, MixedContent, false, false)
    case 23 => Element("H1", ALIGN_ATTR, TextModel, MixedContent, false, false)
    case 24 => Element("H2", ALIGN_ATTR, TextModel, MixedContent, false, false)
    case 25 => Element("H3", ALIGN_ATTR, TextModel, MixedContent, false, false)
    case 26 => Element("H4", ALIGN_ATTR, TextModel, MixedContent, false, false)
    case 27 => Element("H5", ALIGN_ATTR, TextModel, MixedContent, false, false)
    case 28 => Element("H6", ALIGN_ATTR, TextModel, MixedContent, false, false)
    case 29 => Element("HEAD", NO_ATTR, HeadModel, ElementContent, true, true)
    case 30 => Element("HR", HR_ATTR, NoModel, ElementContent, false, true)
    case 31 => Element("HTML", HTML_ATTR, HtmlModel, ElementContent, true, true)
    case 32 => Element("I", NO_ATTR, TextModel, MixedContent, false, false)
    case 33 => Element("IMG", IMG_ATTR, NoModel, ElementContent, false, true)
    case 34 => Element("INPUT", INPUT_ATTR, NoModel, ElementContent, false, true)
    case 35 => Element("ISINDEX", ISINDEX_ATTR, NoModel, ElementContent, false, true)
    case 36 => Element("KBD", NO_ATTR, NoModel, MixedContent, false, false)
    case 37 => Element("LI", LI_ATTR, FlowModel, MixedContent, false, true)
    case 38 => Element("LINK", LINK_ATTR, NoModel, ElementContent, false, true)
    case 39 => Element("MAP", MAP_ATTR, MapModel, ElementContent, false, false)
    case 40 => Element("MENU", COMPACT_ATTR, LiModel, ElementContent, false, false)
    case 41 => Element("META", META_ATTR, NoModel, ElementContent, false, true)
    case 42 => Element("OL", OL_ATTR, LiModel, ElementContent, false, false)
    case 43 => Element("OPTION", OPTION_ATTR, NoModel, MixedContent, false, true)
    case 44 => Element("P", ALIGN_ATTR, TextModel, MixedContent, false, true)
    case 45 => Element("PARAM", PARAM_ATTR, NoModel, ElementContent, false, true)
    case 46 => Element("PRE", PRE_ATTR, TextModel, LiteralContent, false, false)
    case 47 => Element("SAMP", NO_ATTR, TextModel, MixedContent, false, false)
    case 48 => Element("SCRIPT", NO_ATTR, NoModel, MixedContent, false, false)
    case 49 => Element("SELECT", SELECT_ATTR, SelectModel, ElementContent, false, false)
    case 50 => Element("SMALL", NO_ATTR, TextModel, MixedContent, false, false)
    case 51 => Element("STRIKE", NO_ATTR, TextModel, MixedContent, false, false)
    case 52 => Element("STRONG", NO_ATTR, TextModel, MixedContent, false, false)
    case 53 => Element("STYLE", NO_ATTR, NoModel, ElementContent, false, false)
    case 54 => Element("SUB", NO_ATTR, TextModel, MixedContent, false, false)
    case 55 => Element("SUP", NO_ATTR, TextModel, MixedContent, false, false)
    case 56 => Element("TABLE", TABLE_ATTR, TableModel, ElementContent, false, false)
    case 57 => Element("TD", THTD_ATTR, BodyModel, MixedContent, false, true)
    case 58 => Element("TEXTAREA", TEXTAREA_ATTR, NoModel, MixedContent, false, false)
    case 59 => Element("TH", THTD_ATTR, BodyModel, MixedContent, false, true)
    case 60 => Element("TITLE", NO_ATTR, NoModel, MixedContent, false, false)
    case 61 => Element("TR", TR_ATTR, TrModel, ElementContent, false, true)
    case 62 => Element("TT", NO_ATTR, TextModel, MixedContent, false, false)
    case 63 => Element("U", NO_ATTR, TextModel, MixedContent, false, false)
    case 64 => Element("UL", UL_ATTR, LiModel, ElementContent, false, false)
    case 65 => Element("VAR", NO_ATTR, TextModel, MixedContent, false, false)
    case _ => Element("DOCUMENT", NO_ATTR, DocumentModel, ElementContent, true, true)
  }

  function Model(e: nat): seq<nat> { Members(Row(e).kind) }

  /** Elements the output merges: EM, VAR and CITE into I, STRONG and DFN into B, CODE, SAMP and KBD into TT. */
  function Alias(e: nat): nat {
    if e == EM || e == VAR || e == CITE then I
    else if e == STRONG || e == DFN then B
    else if e == CODE || e == SAMP || e == KBD then TT
    else e
  }

  /** How many elements can still be inferred below an element. */
  function Rank(e: nat): nat {
    if e >= DOCUMENT then 3 else if e == HTML then 2 else if e == HEAD || e == BODY then 1 else 0
  }

  /** An element that is neither inferable nor the start element. */
  predicate Plain(e: nat) {
    e < DOCUMENT && e != BODY && e != HEAD && e != HTML
  }

  lemma TextIsPlain(c: nat)
    requires c in TextMembers()
    ensures Plain(c)
  {
    assert c in FONTS || c in PHRASES || c in SPECIALS;
  }

  lemma BlockIsPlain(c: nat)
    requires c in HEADINGS || c in BLOCKS
    ensures Plain(c) && c == Alias(c)
  {
  }

  lemma MembersPlain(k: Kind, c: nat)
    requires c in Members(k)
    ensures k != HtmlModel && k != DocumentModel ==> Plain(c)
    ensures k == HtmlModel ==> c == HEAD || c == BODY
    ensures k == DocumentModel ==> c == HTML
  {
    hide TextMembers, Alias;
    if c in TextMembers() {
      TextIsPlain(c);
    } else if c in HEADINGS || c in BLOCKS {
      BlockIsPlain(c);
    }
  }

  lemma OptionalElements(e: nat)
    ensures Row(e).startOptional <==> e == BODY || e == HEAD || e == HTML || DOCUMENT <= e
  {
  }

  /** Only HTML, HEAD and BODY can be inferred, each only below an element of higher rank. */
  lemma InferredRank(e: nat, c: nat)
    requires c in Model(e) && Row(c).startOptional
    ensures c < DOCUMENT && Rank(c) < Rank(e)
  {
    OptionalElements(c);
    MembersPlain(Row(e).kind, c);
    KindOfOptional(e);
  }

  lemma KindOfOptional(e: nat)
    ensures Row(e).kind == HtmlModel ==> e == HTML
    ensures Row(e).kind == DocumentModel ==> DOCUMENT <= e
  {
  }

  lemma TextAliased(c: nat)
    requires c in TextMembers()
    ensures Alias(c) in TextMembers()
  {
    assert I in FONTS && B in FONTS && TT in FONTS;
  }

  lemma KindAliased(k: Kind, c: nat)
    requires c in Members(k)
    ensures Alias(c) in Members(k)
  {
    hide TextMembers;
    if c in TextMembers() {
      TextAliased(c);
    } else if c in HEADINGS || c in BLOCKS {
      BlockIsPlain(c);
    }
  }

  lemma AliasedRow(e: nat)
    requires e != Alias(e)
    ensures Row(Alias(e)).kind == TextModel && Row(Alias(e)).content == MixedContent
    ensures Row(e).kind == TextModel || Row(e).kind == NoModel
    ensures Row(e).content == MixedContent
  {
  }

  /** Merging elements keeps every child in its parent's content model. */
  lemma AliasKeepsModel(p: nat, c: nat)
    requires c in Model(p)
    ensures Alias(c) in Model(Alias(p))
  {
    if p != Alias(p) {
      AliasedRow(p);
    }
    if c != Alias(c) {
      KindAliased(Row(p).kind, c);
    }
  }

  /** Merging elements keeps text where text may be. */
  lemma AliasKeepsContent(p: nat)
    ensures Row(Alias(p)).content == Row(p).content
  {
    if p != Alias(p) {
      AliasedRow(p);
    }
  }

  function Upper(c: char): char {
    if 'a' <= c <= 'z' then c - 'a' + 'A' else c
  }

  /** Equality of names whatever their capitals. */
  predicate Same(a: string, b: string) {
    |a| == |b| && forall i :: 0 <= i < |a| ==> Upper(a[i]) == Upper(b[i])
  }

  function CharAt(s: string, i: nat): int {
    if i < |s| then Upper(s[i]) as int else 0
  }

  /** The first four letters as a number. */
  function Key(s: string): int {
    16777216 * CharAt(s, 0) + 65536 * CharAt(s, 1) + 256 * CharAt(s, 2) + CharAt(s, 3)
  }

  predicate Before(a: string, b: string) { Key(a) < Key(b) }

  lemma SortedFrom0(e: nat)
    requires 0 <= e < 11
    ensures Before(Row(e).name, Row(e + 1).name)
  {
    assert Before("A", "ADDRESS");
    assert Before("ADDRESS", "APPLET");
    assert Before("APPLET", "AREA");
    assert Before("AREA", "B");
    assert Before("B", "BASE");
    assert Before("BASE", "BIG");
    assert Before("BIG", "BLOCKQUOTE");
    assert Before("BLOCKQUOTE", "BODY");
    assert Before("BODY", "BR");
    assert Before("BR", "CAPTION");
    assert Before("CAPTION", "CENTER");
    hide Before;
  }

  lemma SortedFrom11(e: nat)
    requires 11 <= e < 22
    ensures Before(Row(e).name, Row(e + 1).name)
  {
    assert Before("CENTER", "CITE");
    assert Before("CITE", "CODE");
    assert Before("CODE", "DD");
    assert Before("DD", "DFN");
    assert Before("DFN", "DIR");
    assert Before("DIR", "DIV");
    assert Before("DIV", "DL");
    assert Before("DL", "DT");
    assert Before("DT", "EM");
    assert Before("EM", "FONT");
    assert Before("FONT", "FORM");
    hide Before;
  }

  lemma SortedFrom22(e: nat)
    requires 22 <= e < 33
    ensures Before(Row(e).name, Row(e + 1).name)
  {
    assert Before("FORM", "H1");
    assert Before("H1", "H2");
    assert Before("H2", "H3");
    assert Before("H3", "H4");
    assert Before("H4", "H5");
    assert Before("H5", "H6");
    assert Before("H6", "HEAD");
    assert Before("HEAD", "HR");
    assert Before("HR", "HTML");
    assert Before("HTML", "I");
    assert Before("I", "IMG");
    hide Before;
  }

  lemma SortedFrom33(e: nat)
    requires 33 <= e < 44
    ensures Before(Row(e).name, Row(e + 1).name)
  {
    assert Before("IMG", "INPUT");
    assert Before("INPUT", "ISINDEX");
    assert Before("ISINDEX", "KBD");
    assert Before("KBD", "LI");
    assert Before("LI", "LINK");
    assert Before("LINK", "MAP");
    assert Before("MAP", "MENU");
    assert Before("MENU", "META");
    assert Before("META", "OL");
    assert Before("OL", "OPTION");
    assert Before("OPTION", "P");
    hide Before;
  }

  lemma SortedFrom44(e: nat)
    requires 44 <= e < 55
    ensures Before(Row(e).name, Row(e + 1).name)
  {
    assert Before("P", "PARAM");
    assert Before("PARAM", "PRE");
    assert Before("PRE", "SAMP");
    assert Before("SAMP", "SCRIPT");
    assert Before("SCRIPT", "SELECT");
    assert Before("SELECT", "SMALL");
    assert Before("SMALL", "STRIKE");
    assert Before("STRIKE", "STRONG");
    assert Before("STRONG", "STYLE");
    assert Before("STYLE", "SUB");
    assert Before("SUB", "SUP");
    hide Before;
  }

  lemma SortedFrom55(e: nat)
    requires 55 <= e < 65
    ensures Before(Row(e).name, Row(e + 1).name)
  {
    assert Before("SUP", "TABLE");
    assert Before("TABLE", "TD");
    assert Before("TD", "TEXTAREA");
    assert Before("TEXTAREA", "TH");
    assert Before("TH", "TITLE");
    assert Before("TITLE", "TR");
    assert Before("TR", "TT");
    assert Before("TT", "U");
    assert Before("U", "UL");
    assert Before("UL", "VAR");
    hide Before;
  }

  lemma NameStep(e: nat)
    requires e + 1 < DOCUMENT
    ensures Before(Row(e).name, Row(e + 1).name)
  {
    hide Row, Before;
    if e < 11 { SortedFrom0(e); }
    else if e < 22 { SortedFrom11(e); }
    else if e < 33 { SortedFrom22(e); }
    else if e < 44 { SortedFrom33(e); }
    else if e < 55 { SortedFrom44(e); }
    else { SortedFrom55(e); }
  }

  lemma {:induction false} NamesSorted(i: nat, j: nat)
    requires i < j < DOCUMENT
    ensures Before(Row(i).name, Row(j).name)
    decreases j
  {
    hide Row, Key;
    NameStep(j - 1);
    if i < j - 1 {
      NamesSorted(i, j - 1);
    }
  }

  /** No two elements have the same name. */
  lemma NamesDistinct(name: string, i: nat, j: nat)
    requires i < DOCUMENT && j < DOCUMENT
    requires Same(name, Row(i).name) && Same(name, Row(j).name)
    ensures i == j
  {
    hide Row;
    if i < j {
      NamesSorted(i, j);
    } else if j < i {
      NamesSorted(j, i);
    }
  }

  /** The first element from i on with that name. */
  function NamedFrom(name: string, i: nat): (r: Option<nat>)
    decreases DOCUMENT - i
  {
    if i >= DOCUMENT then None
    else if Same(name, Row(i).name) then Some(i)
    else NamedFrom(name, i + 1)
  }

  function Named(name: string): Option<nat> { NamedFrom(name, 0) }

  lemma {:induction false} NamedFromIff(name: string, i: nat, e: nat)
    ensures NamedFrom(name, i) == Some(e) <==> i <= e < DOCUMENT && Same(name, Row(e).name)
    decreases DOCUMENT - i
  {
    hide Row;
    if i < DOCUMENT {
      if Same(name, Row(i).name) && e < DOCUMENT && Same(name, Row(e).name) {
        hide Same;
        NamesDistinct(name, i, e);
      } else {
        NamedFromIff(name, i + 1, e);
      }
    }
  }

  /** A name finds exactly the element it names, whatever its capitals; the start element has no name. */
  lemma NamedIff(name: string, e: nat)
    ensures Named(name) == Some(e) <==> e < DOCUMENT && Same(name, Row(e).name)
  {
    NamedFromIff(name, 0, e);
  }

  /** The names the output writes for the phrase elements; the other elements keep theirs. */
  const MERGED: map<string, string> :=
    map["EM" := "I", "VAR" := "I", "CITE" := "I", "STRONG" := "B", "DFN" := "B", "CODE" := "TT", "SAMP" := "TT", "KBD" := "TT"]

  lemma SameName(e: nat, k: nat)
    requires e < DOCUMENT && k < DOCUMENT
    ensures Row(e).name == Row(k).name ==> e == k
  {
    hide Row;
    if Row(e).name == Row(k).name {
      NamesDistinct(Row(e).name, e, k);
    }
  }

  lemma SlantedNames()
    ensures Row(EM).name == "EM" && Row(VAR).name == "VAR" && Row(CITE).name == "CITE" && Row(I).name == "I"
  {
  }

  lemma StrongNames()
    ensures Row(STRONG).name == "STRONG" && Row(DFN).name == "DFN" && Row(B).name == "B"
  {
  }

  lemma TypedNames()
    ensures Row(CODE).name == "CODE" && Row(SAMP).name == "SAMP" && Row(KBD).name == "KBD" && Row(TT).name == "TT"
  {
  }

  lemma AliasNames(e: nat)
    requires e < DOCUMENT
    ensures Alias(e) < DOCUMENT
    ensures Row(Alias(e)).name == if Row(e).name in MERGED then MERGED[Row(e).name] else Row(e).name
  {
    hide Row;
    SlantedNames();
    StrongNames();
    TypedNames();
    SameName(e, EM);
    SameName(e, VAR);
    SameName(e, CITE);
    SameName(e, STRONG);
    SameName(e, DFN);
    SameName(e, CODE);
    SameName(e, SAMP);
    SameName(e, KBD);
  }
}
