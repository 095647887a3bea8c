/** The component converter: four global rewrites applied in order to a
    component's source text. Each regular expression is modelled as a
    left-to-right scanner that tries the pattern at every position, emits the
    replacement and resumes after a match, and copies one character
    otherwise. */
module V0Converter {
  import opened Common

  const ExportDefault: string := "export default function Component()"
  const ImportReact: string := "import React"
  const ClassOpen: string := "className=\""
  const WrapperClasses: string := "flex items-center" + " justify-center" + " min-h-screen"
  const DivOpen: string := "<div "
  const WrapperOpen: string := DivOpen + ClassOpen + WrapperClasses
  const WrapperComment: string := "// Removed demo wrapper"

  /** The named-export signature that replaces the default export. */
  function Signature(name: string): string {
    "export function " + name + "({ className = '', state = 'default', size = 'md' }: " + name + "Props)"
  }

  /** The props interface, followed by a blank line. */
  function InterfaceDecl(name: string): string {
    InterfaceWord + PropsBody(name)
  }

  function PropsBody(name: string): string {
    " " + name + "Props {\n  className?: string\n"
    + "  state?: 'default' | 'active' | 'processing' | 'success' | 'error'\n"
    + "  size?: 'sm' | 'md' | 'lg'\n}\n\n"
  }

  /** The two words whose presence means the component is already typed. */
  const InterfaceWord: string := "interface"
  const TypeWord: string := "type"

  const ImportLine: string := "import React, { useState } from 'react'\n"

  /** What replaces the first `import React`: the widened import, then the
      interface after a blank line. */
  function ImportHeader(name: string): string {
    ImportLine + "\n" + InterfaceDecl(name)
  }

  /** The comment a class list is turned into. */
  function StyleComment(classes: string): string {
    StyleOpen + classes + StyleClose
  }

  const StyleOpen: string := "style={{" + "/* Converted from: "
  const StyleClose: string := " */}}"

  /** What a bracketed match emits: a fixed text, or the text between the
      brackets wrapped in a prefix and a suffix. */
  datatype Emit = Fixed(text: string) | Wrap(before: string, after: string)

  function Emitted(e: Emit, inner: string): string {
    match e
    case Fixed(text) => text
    case Wrap(before, after) => before + inner + after
  }

  /** The two shapes of pattern the converter uses: a literal, and
      `open[^c]*c` (`open[^c]+c` when `nonEmpty`). */
  datatype Rule =
    | Literal(find: string, replacement: string)
    | Bracketed(open: string, close: char, nonEmpty: bool, emit: Emit)

  /** `/export default function Component\(\)/g` with the named signature. */
  function ExportRule(name: string): Rule {
    Literal(ExportDefault, Signature(name))
  }

  /** `/className="([^"]+)"/g` with the style-comment callback. */
  const ClassRule: Rule := Bracketed(ClassOpen, '"', true, Wrap(StyleOpen, StyleClose))

  /** `/<div className="flex items-center justify-center min-h-screen[^>]*>/g`. */
  const WrapperRule: Rule := Bracketed(WrapperOpen, '>', false, Fixed(WrapperComment))

  /** A match at the scan position: how much it consumes and what it emits. */
  datatype Hit = Hit(length: nat, replacement: string)

  /** The first index at or after `from` holding `c`. */
  function FindChar(s: string, c: char, from: nat): (r: Option<nat>)
    requires from <= |s|
    ensures r.Some? ==> from <= r.value < |s| && s[r.value] == c
    ensures r.Some? ==> forall j :: from <= j < r.value ==> s[j] != c
    ensures r.None? ==> forall j :: from <= j < |s| ==> s[j] != c
    decreases |s| - from
  {
    if from == |s| then None
    else if s[from] == c then Some(from)
    else FindChar(s, c, from + 1)
  }

  /** The pattern of `rule` tried at the start of `s`. An empty literal never
      matches; the converter uses none. */
  function HitAt(rule: Rule, s: string): (h: Option<Hit>)
    ensures h.Some? ==> 0 < h.value.length <= |s|
    ensures rule.Literal? ==> (h.Some? <==> rule.find != "" && StartsWith(s, rule.find))
    ensures rule.Bracketed? && h.Some? ==> StartsWith(s, rule.open) && s[h.value.length - 1] == rule.close
  {
    match rule
    case Literal(find, replacement) =>
      if find != "" && StartsWith(s, find) then Some(Hit(|find|, replacement)) else None
    case Bracketed(open, close, nonEmpty, emit) =>
      if !StartsWith(s, open) then None
      else
        match FindChar(s, close, |open|)
        case None => None
        case Some(k) =>
          if nonEmpty && k == |open| then None
          else Some(Hit(k + 1, Emitted(emit, s[|open|..k])))
  }

  /** `s.replace(pattern, replacement)` with the global flag. */
  function ReplaceAll(rule: Rule, s: string): string
    decreases |s|
  {
    if |s| == 0 then ""
    else
      match HitAt(rule, s)
      case Some(h) => h.replacement + ReplaceAll(rule, s[h.length..])
      case None => [s[0]] + ReplaceAll(rule, s[1..])
  }

  /** `s.replace(p, rep)` with a literal pattern and no global flag. */
  function ReplaceFirst(s: string, p: string, rep: string): string {
    match FirstIndex(s, p)
    case None => s
    case Some(i) => s[..i] + rep + s[i + |p|..]
  }

  /** The interface declaration is added only when the text mentions neither
      `interface` nor `type`. */
  function AddInterface(s: string, name: string): string {
    InsertHeader(s, ImportHeader(name))
  }

  /** The same step for any header text. */
  function InsertHeader(s: string, header: string): string {
    if !Contains(s, InterfaceWord) && !Contains(s, TypeWord) then ReplaceFirst(s, ImportReact, header)
    else s
  }

  /** `convertV0Component`. A `$` in the name would be read as a replacement
      pattern by JavaScript, which the model does not cover. */
  function ConvertV0Component(input: string, name: string): (r: string)
    requires '$' !in name
    ensures !Contains(input, ExportDefault) && (Contains(input, InterfaceWord) || Contains(input, TypeWord)) ==>
              r == ReplaceAll(WrapperRule, ReplaceAll(ClassRule, input))
  {
    var exported := ReplaceAll(ExportRule(name), input);
    ExportReplaced(input, name);
    InterfaceInsertion(exported, name);
    var typed := AddInterface(exported, name);
    var styled := ReplaceAll(ClassRule, typed);
    ReplaceAll(WrapperRule, styled)
  }

  // ---------------------------------------------------------------------
  // Scanner laws
  // ---------------------------------------------------------------------

  predicate NoHitBefore(rule: Rule, s: string, i: nat)
    requires i <= |s|
  {
    forall k {:trigger HitAt(rule, s[k..])} :: 0 <= k < i ==> HitAt(rule, s[k..]).None?
  }

  /** A position that starts no match copies one character. */
  lemma CopyOne(rule: Rule, s: string)
    requires |s| > 0 && HitAt(rule, s).None?
    ensures ReplaceAll(rule, s) == [s[0]] + ReplaceAll(rule, s[1..])
  {
  }

  /** Between `lo` and `i` no match starts, so that stretch is copied. */
  lemma {:induction false} CopyBetween(rule: Rule, s: string, lo: nat, i: nat)
    requires lo <= i <= |s| && forall k {:trigger HitAt(rule, s[k..])} :: lo <= k < i ==> HitAt(rule, s[k..]).None?
    ensures ReplaceAll(rule, s[lo..]) == s[lo..i] + ReplaceAll(rule, s[i..])
    decreases i - lo
  {
    if lo < i {
      CopyOne(rule, s[lo..]);
      assert s[lo..][1..] == s[lo + 1..];
      CopyBetween(rule, s, lo + 1, i);
      assert s[lo..i] == [s[lo]] + s[lo + 1..i];
    }
  }

  /** Positions that start no match are copied verbatim. */
  lemma CopyUntilHit(rule: Rule, s: string, i: nat)
    requires i <= |s| && NoHitBefore(rule, s, i)
    ensures ReplaceAll(rule, s) == s[..i] + ReplaceAll(rule, s[i..])
  {
    CopyBetween(rule, s, 0, i);
    assert s[0..] == s && s[0..i] == s[..i];
  }

  /** The leftmost match is replaced and scanning resumes after it. */
  lemma ReplaceAtFirstHit(rule: Rule, s: string, i: nat)
    requires i < |s| && NoHitBefore(rule, s, i) && HitAt(rule, s[i..]).Some?
    ensures ReplaceAll(rule, s) ==
              s[..i] + HitAt(rule, s[i..]).value.replacement
              + ReplaceAll(rule, s[i + HitAt(rule, s[i..]).value.length..])
  {
    CopyUntilHit(rule, s, i);
    var h := HitAt(rule, s[i..]).value;
    assert s[i..][h.length..] == s[i + h.length..];
  }

  /** Text with no match anywhere is returned unchanged. */
  lemma NoHitUnchanged(rule: Rule, s: string)
    requires NoHitBefore(rule, s, |s|)
    ensures ReplaceAll(rule, s) == s
  {
    CopyUntilHit(rule, s, |s|);
    assert s[..|s|] == s;
  }

  /** A bracketed pattern matches its opening, a run free of the closing
      character, and the first closing character after it. */
  lemma BracketedMatch(rule: Rule, inner: string, post: string)
    requires rule.Bracketed? && rule.close !in inner && (rule.nonEmpty ==> inner != "")
    ensures HitAt(rule, rule.open + inner + [rule.close] + post)
            == Some(Hit(|rule.open| + |inner| + 1, Emitted(rule.emit, inner)))
  {
    var s := rule.open + inner + [rule.close] + post;
    var n := |rule.open|;
    assert s[..n] == rule.open;
    assert forall j :: n <= j < n + |inner| ==> s[j] == inner[j - n];
    assert s[n + |inner|] == rule.close;
    assert FindChar(s, rule.close, n) == Some(n + |inner|);
    assert s[n..n + |inner|] == inner;
  }

  // ---------------------------------------------------------------------
  // The four steps
  // ---------------------------------------------------------------------

  /** Step 1: the default export is replaced at its first occurrence, then
      again after it, so every occurrence is; without one nothing changes. */
  lemma ExportReplaced(s: string, name: string)
    ensures FirstIndex(s, ExportDefault).None? ==> ReplaceAll(ExportRule(name), s) == s
    ensures FirstIndex(s, ExportDefault).Some? ==>
              var i := FirstIndex(s, ExportDefault).value;
              ReplaceAll(ExportRule(name), s)
              == s[..i] + Signature(name) + ReplaceAll(ExportRule(name), s[i + |ExportDefault|..])
  {
    var rule := ExportRule(name);
    match FirstIndex(s, ExportDefault)
    case None =>
      NoHitUnchanged(rule, s);
    case Some(i) =>
      ReplaceAtFirstHit(rule, s, i);
  }

  /** Step 2: the header replaces only the first `import React` and keeps
      the rest of that line; mentioning `interface` or `type`, or lacking an
      `import React`, leaves the text unchanged. */
  lemma InterfaceInsertion(s: string, name: string)
    ensures Contains(s, InterfaceWord) || Contains(s, TypeWord) ==> AddInterface(s, name) == s
    ensures !Contains(s, ImportReact) ==> AddInterface(s, name) == s
    ensures !Contains(s, InterfaceWord) && !Contains(s, TypeWord) && Contains(s, ImportReact) ==>
              var i := FirstIndex(s, ImportReact).value;
              && (forall k :: 0 <= k < i ==> !StartsWith(s[k..], ImportReact))
              && AddInterface(s, name) == s[..i] + ImportHeader(name) + s[i + |ImportReact|..]
  {
    HeaderInsertion(s, ImportHeader(name));
  }

  lemma HeaderInsertion(s: string, h: string)
    ensures Contains(s, InterfaceWord) || Contains(s, TypeWord) ==> InsertHeader(s, h) == s
    ensures !Contains(s, ImportReact) ==> InsertHeader(s, h) == s
    ensures !Contains(s, InterfaceWord) && !Contains(s, TypeWord) && Contains(s, ImportReact) ==>
              var i := FirstIndex(s, ImportReact).value;
              && (forall k :: 0 <= k < i ==> !StartsWith(s[k..], ImportReact))
              && InsertHeader(s, h) == s[..i] + h + s[i + |ImportReact|..]
  {
  }

  /** A text with `p` at the start of its middle part contains `p`. */
  lemma ContainsInside(a: string, b: string, c: string, p: string)
    requires StartsWith(b, p)
    ensures Contains(a + b + c, p)
  {
    var s := a + b + c;
    assert s[|a|..][..|p|] == b[..|p|];
    ContainsIffOccurs(s, p);
  }

  /** A text containing `p` still contains it with text around it. */
  lemma ContainsWithin(a: string, b: string, c: string, p: string)
    requires Contains(b, p)
    ensures Contains(a + b + c, p)
  {
    var j := FirstIndex(b, p).value;
    assert a + b + c == (a + b[..j]) + b[j..] + c;
    ContainsInside(a + b[..j], b[j..], c, p);
  }

  /** The header mentions `interface`. */
  lemma HeaderMentionsInterface(name: string)
    ensures Contains(ImportHeader(name), InterfaceWord)
  {
    var pre := ImportLine + "\n";
    assert StartsWith(InterfaceDecl(name), InterfaceWord) by {
      assert InterfaceDecl(name)[..|InterfaceWord|] == InterfaceWord;
    }
    ContainsInside(pre, InterfaceDecl(name), "", InterfaceWord);
    assert pre + InterfaceDecl(name) + "" == ImportHeader(name);
  }

  /** Once inserted, the interface is not inserted again. */
  lemma InterfaceIdempotent(s: string, name: string)
    ensures AddInterface(AddInterface(s, name), name) == AddInterface(s, name)
  {
    HeaderMentionsInterface(name);
    HeaderIdempotent(s, ImportHeader(name));
  }

  lemma HeaderIdempotent(s: string, h: string)
    requires Contains(h, InterfaceWord)
    ensures InsertHeader(InsertHeader(s, h), h) == InsertHeader(s, h)
  {
    var r := InsertHeader(s, h);
    if r != s {
      var i := FirstIndex(s, ImportReact).value;
      assert r == s[..i] + h + s[i + |ImportReact|..];
      ContainsWithin(s[..i], h, s[i + |ImportReact|..], InterfaceWord);
    }
  }

  /** No class attribute starts inside quote-free text followed by a `c`. */
  lemma NoClassHitInQuoteFree(pre: string, rest: string, k: nat)
    requires '"' !in pre && StartsWith(rest, "c") && k < |pre|
    ensures HitAt(ClassRule, (pre + rest)[k..]).None?
  {
    var s := pre + rest;
    if k + 10 < |pre| {
      assert s[k..][10] == pre[k + 10];
    } else {
      assert s[k..][|pre| - k] == rest[0];
    }
  }

  /** Step 3: a closed, non-empty, quote-free class list after quote-free
      text becomes a style comment that keeps the class list. */
  lemma ClassAttributeRewritten(pre: string, classes: string, post: string)
    requires classes != "" && '"' !in classes && '"' !in pre
    ensures ReplaceAll(ClassRule, pre + ClassOpen + classes + "\"" + post)
            == pre + StyleComment(classes) + ReplaceAll(ClassRule, post)
  {
    var rest := ClassOpen + classes + "\"" + post;
    var s := pre + rest;
    assert s == pre + ClassOpen + classes + "\"" + post;
    forall k | 0 <= k < |pre|
      ensures HitAt(ClassRule, s[k..]).None?
    {
      NoClassHitInQuoteFree(pre, rest, k);
    }
    assert s[|pre|..] == rest;
    BracketedMatch(ClassRule, classes, post);
    ReplaceAtFirstHit(ClassRule, s, |pre|);
    assert s[|pre| + |ClassOpen| + |classes| + 1..] == post;
    assert s[..|pre|] == pre;
  }

  /** A demo wrapper's opening tag after step 3, up to its class list's
      fixed part. */
  const StyledWrapperHead: string := DivOpen + (StyleOpen + WrapperClasses)

  lemma StyleOpenHasNoTag()
    ensures |StyleOpen| > 0 && StyleOpen[0] == 's' && '<' !in StyleOpen
  {
  }

  lemma WrapperClassesHaveNoTag()
    ensures '<' !in WrapperClasses
  {
  }

  lemma DivOpenShape()
    ensures |DivOpen| == 5 && DivOpen[0] == '<' && '<' !in DivOpen[1..]
  {
    assert DivOpen[1..] == "div ";
  }

  /** A five-character tag opening followed by `<`-free text. */
  lemma TagHead(a: string, b: string, c: string)
    requires |a| == 5 && a[0] == '<' && '<' !in a[1..]
    requires |b| > 0 && b[0] == 's' && '<' !in b && '<' !in c
    ensures var h := a + (b + c);
            |h| > 5 && h[0] == '<' && h[5] == 's' && '<' !in h[1..]
  {
    var h := a + (b + c);
    assert h[1..] == a[1..] + (b + c);
  }

  lemma StyledHeadShape()
    ensures |StyledWrapperHead| > 5 && StyledWrapperHead[0] == '<' && StyledWrapperHead[5] == 's'
    ensures '<' !in StyledWrapperHead[1..]
  {
    DivOpenShape();
    StyleOpenHasNoTag();
    WrapperClassesHaveNoTag();
    TagHead(DivOpen, StyleOpen, WrapperClasses);
  }

  /** A wrapper match needs a `<` followed four characters later by the `c`
      of `className`. */
  lemma NoWrapperHit(s: string)
    requires |s| > 5 && (s[0] != '<' || s[5] != 'c')
    ensures HitAt(WrapperRule, s).None?
  {
    assert WrapperOpen[0] == '<' && WrapperOpen[5] == 'c';
  }

  /** Step 4 keeps a rewritten wrapper tag: no wrapper match starts inside
      it, since only its first character is a `<` and that one is followed
      by `style`. */
  lemma StyledHeadKept(t: string)
    requires StartsWith(t, StyledWrapperHead)
    ensures StartsWith(ReplaceAll(WrapperRule, t), StyledWrapperHead)
  {
    var n := |StyledWrapperHead|;
    StyledHeadShape();
    forall k | 0 <= k < n
      ensures HitAt(WrapperRule, t[k..]).None?
    {
      if k == 0 {
        assert t[k..][5] == StyledWrapperHead[5];
      } else {
        assert t[k..][0] == StyledWrapperHead[1..][k - 1];
      }
      if k + 5 < |t| {
        NoWrapperHit(t[k..]);
      }
    }
    CopyUntilHit(WrapperRule, t, n);
  }

  /** A demo wrapper tag with a closed, quote-free class list. */
  function WrapperTag(classes: string): string {
    DivOpen + ClassOpen + classes + "\""
  }

  /** Without step 3 the wrapper pattern would match such a tag as soon as
      a `>` follows. */
  lemma RawWrapperMatches(classes: string, post: string)
    requires StartsWith(classes, WrapperClasses) && Contains(post, ">")
    ensures HitAt(WrapperRule, WrapperTag(classes) + post).Some?
  {
    var s := WrapperTag(classes) + post;
    var tail := classes[|WrapperClasses|..] + "\"";
    assert classes == WrapperClasses + classes[|WrapperClasses|..];
    assert s == WrapperOpen + (tail + post);
    assert s[..|WrapperOpen|] == WrapperOpen && s[|WrapperOpen|..] == tail + post;
    var j := FirstIndex(post, ">").value;
    assert s[|WrapperOpen| + |tail| + j] == '>';
  }

  lemma StartsWithAfter(a: string, b: string, p: string)
    requires StartsWith(b, p)
    ensures StartsWith(a + b, a + p)
  {
    assert (a + b)[..|a + p|] == a + b[..|p|];
  }

  /** Step 3 on a demo wrapper tag. */
  lemma WrapperTagStyled(classes: string, post: string)
    requires classes != "" && '"' !in classes
    ensures ReplaceAll(ClassRule, WrapperTag(classes) + post)
            == DivOpen + StyleComment(classes) + ReplaceAll(ClassRule, post)
  {
    ClassAttributeRewritten(DivOpen, classes, post);
    assert WrapperTag(classes) + post == DivOpen + ClassOpen + classes + "\"" + post;
  }

  lemma StyledTagHead(classes: string, rest: string)
    requires StartsWith(classes, WrapperClasses)
    ensures StartsWith(DivOpen + StyleComment(classes) + rest, StyledWrapperHead)
  {
    var tail := classes + StyleClose + rest;
    assert StartsWith(tail, WrapperClasses) by {
      assert tail[..|WrapperClasses|] == classes[..|WrapperClasses|];
    }
    StartsWithAfter(StyleOpen, tail, WrapperClasses);
    StartsWithAfter(DivOpen, StyleOpen + tail, StyleOpen + WrapperClasses);
    assert DivOpen + StyleComment(classes) + rest == DivOpen + (StyleOpen + tail);
  }

  /** A wrapper match starts with a `<`. */
  lemma NoWrapperHitOffTag(s: string)
    requires |s| > 0 && s[0] != '<'
    ensures HitAt(WrapperRule, s).None?
  {
    assert WrapperOpen[0] == '<';
  }

  /** No class attribute starts inside quote-free text followed by a `<`. */
  lemma NoClassHitBeforeTag(pre: string, rest: string, k: nat)
    requires '"' !in pre && |rest| > 0 && rest[0] == '<' && k < |pre|
    ensures HitAt(ClassRule, (pre + rest)[k..]).None?
  {
    var s := pre + rest;
    if k + 10 < |pre| {
      assert s[k..][10] == pre[k + 10];
    } else {
      assert s[k..][|pre| - k] == rest[0];
    }
  }

  /** Step 3 copies quote-free text before a tag and goes on at the tag. */
  lemma QuoteFreeKept(pre: string, rest: string)
    requires '"' !in pre && |rest| > 0 && rest[0] == '<'
    ensures ReplaceAll(ClassRule, pre + rest) == pre + ReplaceAll(ClassRule, rest)
  {
    var s := pre + rest;
    forall k | 0 <= k < |pre|
      ensures HitAt(ClassRule, s[k..]).None?
    {
      NoClassHitBeforeTag(pre, rest, k);
    }
    CopyUntilHit(ClassRule, s, |pre|);
    assert s[..|pre|] == pre && s[|pre|..] == rest;
  }

  /** Step 3 on a demo wrapper tag after quote-free text. */
  lemma WrapperTagStyledAfter(pre: string, classes: string, post: string)
    requires classes != "" && '"' !in classes && '"' !in pre
    ensures ReplaceAll(ClassRule, pre + WrapperTag(classes) + post)
            == pre + (DivOpen + StyleComment(classes) + ReplaceAll(ClassRule, post))
  {
    var rest := WrapperTag(classes) + post;
    DivOpenShape();
    assert rest[0] == DivOpen[0];
    QuoteFreeKept(pre, rest);
    WrapperTagStyled(classes, post);
    assert pre + WrapperTag(classes) + post == pre + rest;
  }

  /** Step 4 copies text without a `<` and goes on after it. */
  lemma TagFreeKept(pre: string, rest: string)
    requires '<' !in pre
    ensures ReplaceAll(WrapperRule, pre + rest) == pre + ReplaceAll(WrapperRule, rest)
  {
    var s := pre + rest;
    forall k | 0 <= k < |pre|
      ensures HitAt(WrapperRule, s[k..]).None?
    {
      assert s[k..][0] == pre[k];
      NoWrapperHitOffTag(s[k..]);
    }
    CopyUntilHit(WrapperRule, s, |pre|);
    assert s[..|pre|] == pre && s[|pre|..] == rest;
  }

  /** Steps 3 and 4 in this order: a demo wrapper whose class list is closed
      by a quote, after text with no quote and no tag, is turned into a style
      comment by step 3 and no longer matches step 4; the text before it is
      kept. */
  lemma WrapperRewrittenNotRemoved(pre: string, classes: string, post: string)
    requires StartsWith(classes, WrapperClasses) && '"' !in classes
    requires '"' !in pre && '<' !in pre
    ensures var out := ReplaceAll(WrapperRule, ReplaceAll(ClassRule, pre + WrapperTag(classes) + post));
            && |pre| <= |out| && out[..|pre|] == pre
            && StartsWith(out[|pre|..], StyledWrapperHead) && !StartsWith(out[|pre|..], WrapperComment)
  {
    WrapperTagStyledAfter(pre, classes, post);
    var rest := DivOpen + StyleComment(classes) + ReplaceAll(ClassRule, post);
    TagFreeKept(pre, rest);
    StyledTagHead(classes, ReplaceAll(ClassRule, post));
    StyledHeadKept(rest);
    var tail := ReplaceAll(WrapperRule, rest);
    HeadIsNotComment(tail);
    assert (pre + tail)[..|pre|] == pre && (pre + tail)[|pre|..] == tail;
  }

  lemma HeadIsNotComment(out: string)
    requires StartsWith(out, StyledWrapperHead)
    ensures !StartsWith(out, WrapperComment)
  {
    assert out[0] == StyledWrapperHead[0] == '<';
    assert WrapperComment[0] == '/';
  }

  /** Text that mentions `interface` or `type` and matches none of the
      other patterns comes out unchanged. */
  lemma ConvertUnchanged(s: string, name: string)
    requires '$' !in name
    requires Contains(s, InterfaceWord) || Contains(s, TypeWord)
    requires !Contains(s, ExportDefault)
    requires NoHitBefore(ClassRule, s, |s|) && NoHitBefore(WrapperRule, s, |s|)
    ensures ConvertV0Component(s, name) == s
  {
    ExportReplaced(s, name);
    NoHitUnchanged(ClassRule, s);
    NoHitUnchanged(WrapperRule, s);
  }
}
