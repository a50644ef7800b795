/**
 * What the title_squeezer.py state machine promises, proved about
 * TitleSqueezerMachine: chunk-boundary invariance, whitespace collapsing,
 * verbatim quoted values, the `/title` fault, raw-text and comment
 * skipping, first-match-wins metadata and the `http-equiv` charset pieces.
 */
module TitleSqueezerLemmas {
  import opened Wrappers
  import opened Bytes
  import opened Names
  import opened Tokenizer
  import opened LiteralMatch
  import opened HttpEquiv
  import opened TitleSqueezerMachine

  // ---------------------------------------------------------------------
  // Chunks

  /**
   * Feeding `a` and then `b` is feeding `a + b`: `feed` keeps all of its
   * state in fields, so a chunk boundary changes nothing.
   */
  lemma {:induction false} RunConcat(m: Machine, a: bytes, b: bytes, known: bytes -> bool)
    requires Valid(m)
    ensures Run(m, a + b, known)
         == (var o := Run(m, a, known); if o.raised then o else Run(o.m, b, known))
    decreases |a|
  {
    if a == [] {
      assert a + b == b;
    } else {
      var o1 := Step(m, a[0], known);
      assert (a + b)[0] == a[0];
      assert (a + b)[1..] == a[1..] + b;
      assert Run(m, a + b, known) == if o1.raised then o1 else Run(o1.m, a[1..] + b, known);
      assert Run(m, a, known) == if o1.raised then o1 else Run(o1.m, a[1..], known);
      if !o1.raised {
        RunConcat(o1.m, a[1..], b, known);
      }
    }
  }

  // ---------------------------------------------------------------------
  // Whitespace in content

  /**
   * A run of whitespace in content contributes exactly one space to the
   * title (while inside `<title>`), and nothing when the previous byte was
   * already whitespace; it changes nothing else but the state.
   */
  lemma {:induction false} WhitespaceRunCollapses(m: Machine, ws: bytes, known: bytes -> bool)
    requires m.state.Content? || m.state.ContentSpace?
    requires ws != [] && forall i :: 0 <= i < |ws| ==> IsSpace(ws[i])
    ensures !Run(m, ws, known).raised
    ensures Run(m, ws, known).m
         == (if m.state.Content? then DispatchContent(m, [SPACE]) else m).(state := ContentSpace)
    ensures m.state.Content? && m.insideTitle ==>
      Run(m, ws, known).m.title == Some(if m.title.None? then [SPACE] else m.title.value + [SPACE])
    ensures m.state.ContentSpace? || !m.insideTitle ==> Run(m, ws, known).m.title == m.title
    decreases |ws|
  {
    var m1 := (if m.state.Content? then DispatchContent(m, [SPACE]) else m).(state := ContentSpace);
    assert StepContent(m, ws[0]) == m1;
    assert Step(m, ws[0], known) == Outcome(m1, false);
    assert Run(m, ws, known) == Run(m1, ws[1..], known);
    ContentSpaceDropsWhitespace(m1, ws[1..], known);
  }

  /** In `contentspace` further whitespace is dropped: the machine does not change at all. */
  lemma {:induction false} ContentSpaceDropsWhitespace(m: Machine, ws: bytes, known: bytes -> bool)
    requires m.state.ContentSpace?
    requires forall i :: 0 <= i < |ws| ==> IsSpace(ws[i])
    ensures Run(m, ws, known) == Outcome(m, false)
    decreases |ws|
  {
    if ws != [] {
      assert StepContent(m, ws[0]) == m;
      assert Step(m, ws[0], known) == Outcome(m, false);
      assert Run(m, ws, known) == Run(m, ws[1..], known);
      ContentSpaceDropsWhitespace(m, ws[1..], known);
    }
  }

  // ---------------------------------------------------------------------
  // Quoted values

  /**
   * Between double quotes every byte but `"` is appended to the pending
   * value, `<`, `>` and whitespace included, and nothing else changes.
   */
  lemma {:induction false} QuotedValueVerbatim(m: Machine, s: bytes, known: bytes -> bool)
    requires m.state.AttrQuote? && Valid(m)
    requires QUOTE !in s
    ensures Run(m, s, known) == Outcome(m.(lastValue := Some(m.lastValue.value + s)), false)
    decreases |s|
  {
    if s != [] {
      var v := m.lastValue.value;
      var m1 := m.(lastValue := Some(v + [s[0]]));
      assert Valid(m1) && Run(m, s, known) == Run(m1, s[1..], known) by {
        QuotedValueFirst(m, s, known);
      }
      assert Run(m1, s[1..], known) == Outcome(m1.(lastValue := Some((v + [s[0]]) + s[1..])), false) by {
        assert s == [s[0]] + s[1..];
        QuotedValueVerbatim(m1, s[1..], known);
      }
      assert (v + [s[0]]) + s[1..] == v + s;
    } else {
      assert m.lastValue.value + s == m.lastValue.value;
    }
  }

  lemma QuotedValueFirst(m: Machine, s: bytes, known: bytes -> bool)
    requires m.state.AttrQuote? && Valid(m)
    requires s != [] && s[0] != QUOTE
    ensures Valid(m.(lastValue := Some(m.lastValue.value + [s[0]])))
    ensures Run(m, s, known) == Run(m.(lastValue := Some(m.lastValue.value + [s[0]])), s[1..], known)
  {
    QuoteStep(m, s[0], known);
  }

  /** The closing quote returns to `attrvalue` with the quoted bytes as the pending value. */
  lemma QuotedValueEnds(m: Machine, s: bytes, known: bytes -> bool)
    requires m.state.AttrQuote? && Valid(m)
    requires QUOTE !in s
    ensures Run(m, s + [QUOTE], known)
         == Outcome(m.(lastValue := Some(m.lastValue.value + s), state := AttrValue), false)
  {
    RunConcat(m, s, [QUOTE], known);
    QuotedValueVerbatim(m, s, known);
    var m1 := m.(lastValue := Some(m.lastValue.value + s));
    QuoteStep(m1, QUOTE, known);
    RunOne(m1, QUOTE, known);
  }

  /** One byte of `attrquote`: `"` returns to `attrvalue`, anything else is appended to the value. */
  lemma QuoteStep(m: Machine, c: byte, known: bytes -> bool)
    requires m.state.AttrQuote? && Valid(m)
    ensures c == QUOTE ==> Step(m, c, known) == Outcome(m.(state := AttrValue), false)
    ensures c != QUOTE ==> Step(m, c, known) == Outcome(m.(lastValue := Some(m.lastValue.value + [c])), false)
  {
    assert !InScript(m.state) && !InStyle(m.state);
    assert Step(m, c, known) == Outcome(StepAttrQuote(m, c), false);
  }

  // ---------------------------------------------------------------------
  // Text

  /** Two pieces of text dispatched one after the other are one piece. */
  lemma DispatchContentAppend(m: Machine, a: bytes, b: bytes)
    ensures DispatchContent(DispatchContent(m, a), b) == DispatchContent(m, a + b)
  {
    if m.insideTitle && m.title.Some? {
      assert m.title.value + a + b == m.title.value + (a + b);
    }
  }

  /**
   * Text without whitespace and without `<` is passed on byte for byte:
   * inside `<title>` the title gains exactly that text, outside nothing
   * changes, and the machine is back in `content`.
   */
  lemma {:induction false} TextRunVerbatim(m: Machine, s: bytes, known: bytes -> bool)
    requires m.state.Content? || m.state.ContentSpace?
    requires s != [] && forall i :: 0 <= i < |s| ==> !IsSpace(s[i]) && s[i] != LESS_THAN
    ensures Run(m, s, known) == Outcome(DispatchContent(m, s).(state := Content), false)
    ensures m.insideTitle ==> Run(m, s, known).m.title == Some(OrEmpty(m.title) + s)
    ensures !m.insideTitle ==> Run(m, s, known).m == m.(state := Content)
    decreases |s|
  {
    var m1 := DispatchContent(m, [s[0]]).(state := Content);
    assert !InScript(m.state) && !InStyle(m.state);
    assert Step(m, s[0], known) == Outcome(StepContent(m, s[0]), false);
    assert Run(m, s, known) == Run(m1, s[1..], known);
    if |s| == 1 {
      assert [s[0]] == s;
    } else {
      TextRunVerbatim(m1, s[1..], known);
      assert DispatchContent(m1, s[1..]).(state := Content)
          == DispatchContent(DispatchContent(m, [s[0]]), s[1..]).(state := Content);
      DispatchContentAppend(m, [s[0]], s[1..]);
      assert [s[0]] + s[1..] == s;
    }
  }

  // ---------------------------------------------------------------------
  // The `/title` fault

  /**
   * A byte raises exactly when it completes a start tag that lower-cases to
   * `/title` while no title has been captured: `tagname` on whitespace, `<`
   * or `>`, and `tagnameslash` on `<` or `>` (or on whitespace, which first
   * appends the pending `/`). The failed byte leaves the state where it was
   * and only the tag name and the freshly reset attribute map differ.
   */
  lemma StepRaisesIff(m: Machine, c: byte, known: bytes -> bool)
    requires Valid(m)
    ensures Step(m, c, known).raised <==>
      && m.title.None?
      && ((m.state.TagName? && (IsSpace(c) || c == LESS_THAN || c == GREATER_THAN)
             && Lower(m.lastTag) == SLASH_TITLE)
          || (m.state.TagNameSlash? && (c == LESS_THAN || c == GREATER_THAN)
             && Lower(m.lastTag) == SLASH_TITLE)
          || (m.state.TagNameSlash? && IsSpace(c) && Lower(m.lastTag + [SLASH]) == SLASH_TITLE))
    ensures Step(m, c, known).raised ==>
      Step(m, c, known).m == m.(lastTag := Step(m, c, known).m.lastTag, lastAttrs := Some(map[]))
  {
    assert Lower([SLASH]) != SLASH_TITLE && Lower([BANG]) != SLASH_TITLE && Lower([BANG, DASH]) != SLASH_TITLE;
  }

  /** Feeding one byte is one step. */
  lemma RunOne(m: Machine, c: byte, known: bytes -> bool)
    requires Valid(m)
    ensures Run(m, [c], known) == Step(m, c, known)
  {
    assert [c][1..] == [];
  }

  /** Running `[c] + rest` is one step and then the rest, when the step does not raise. */
  lemma RunCons(m: Machine, c: byte, rest: bytes, known: bytes -> bool)
    requires Valid(m) && !Step(m, c, known).raised
    ensures Run(m, [c] + rest, known) == Run(Step(m, c, known).m, rest, known)
  {
    assert ([c] + rest)[0] == c && ([c] + rest)[1..] == rest;
  }

  /** `<` in content opens a tag. */
  lemma ContentOpensTag(m: Machine, known: bytes -> bool)
    requires m.state.Content? && Valid(m)
    ensures Step(m, LESS_THAN, known) == Outcome(BeginTag(m), false)
  {
    assert Step(m, LESS_THAN, known) == Outcome(StepContent(m, LESS_THAN), false);
  }

  /** After `<`, a byte that is no delimiter and no `!` starts the tag name. */
  lemma TagStartsName(m: Machine, c: byte, known: bytes -> bool)
    requires m.state.Tag? && Valid(m) && !Delimits(c) && c != BANG
    ensures Step(m, c, known) == Outcome(m.(lastTag := [c], state := TagName), false)
  {
    assert Step(m, c, known) == Outcome(StepTag(m, c), false);
  }

  /** After `<`, a `/` leads to `tagslash`. */
  lemma TagOpensSlash(m: Machine, known: bytes -> bool)
    requires m.state.Tag? && Valid(m)
    ensures Step(m, SLASH, known) == Outcome(m.(state := TagSlash), false)
  {
    assert Step(m, SLASH, known) == Outcome(StepTag(m, SLASH), false);
  }

  /** After `</`, any byte but whitespace, `<` and `>` starts a tag name beginning with `/`. */
  lemma SlashStartsName(m: Machine, c: byte, known: bytes -> bool)
    requires m.state.TagSlash? && Valid(m) && !IsSpace(c) && c != LESS_THAN && c != GREATER_THAN
    ensures Step(m, c, known) == Outcome(m.(lastTag := [SLASH, c], state := TagName), false)
  {
    assert Step(m, c, known) == Outcome(StepPrefixed(m, c, [SLASH], None, known), false);
    assert [SLASH] + [c] == [SLASH, c];
  }

  /**
   * A stray `<` in the title: followed by whitespace or `>` it is kept as
   * the escaped text `&lt;` and that byte (`&gt;` for `>`).
   */
  lemma StrayLessThanEscaped(m: Machine, c: byte, known: bytes -> bool)
    requires (m.state.Content? || m.state.ContentSpace?) && Valid(m) && m.insideTitle
    requires IsSpace(c) || c == GREATER_THAN
    ensures !Run(m, [LESS_THAN, c], known).raised
    ensures Run(m, [LESS_THAN, c], known).m.state == Content
    ensures Run(m, [LESS_THAN, c], known).m.title ==
      Some(OrEmpty(m.title) + ESCAPED_LT + (if c == GREATER_THAN then ESCAPED_GT else [c]))
  {
    var m1 := BeginTag(m);
    assert Step(m, LESS_THAN, known) == Outcome(m1, false) by { ContentStep(m, LESS_THAN, known); }
    var e := ESCAPED_LT + (if c == GREATER_THAN then ESCAPED_GT else [c]);
    var m2 := DispatchContent(m1, e).(state := Content);
    assert Step(m1, c, known) == Outcome(m2, false) by { TagStep(m1, c, known); }
    assert Run(m, [LESS_THAN, c], known) == Outcome(m2, false) by {
      RunCons(m, LESS_THAN, [c], known);
      RunOne(m1, c, known);
      assert [LESS_THAN] + [c] == [LESS_THAN, c];
    }
    assert OrEmpty(m.title) + e == OrEmpty(m.title) + ESCAPED_LT + (if c == GREATER_THAN then ESCAPED_GT else [c]);
  }

  /**
   * `<` after `</`, `<!` or `<!-` in the title: the prefix is kept as
   * escaped text and a new tag begins.
   */
  lemma PrefixLessThanEscaped(m: Machine, p: bytes, known: bytes -> bool)
    requires p == [SLASH] || p == [BANG] || p == [BANG, DASH]
    requires m.state == (if p == [SLASH] then TagSlash else if p == [BANG] then TagBang else TagBangDash)
    requires Valid(m) && m.insideTitle
    ensures Step(m, LESS_THAN, known) ==
      Outcome(m.(title := Some(OrEmpty(m.title) + ESCAPED_LT + p), state := Tag), false)
  {
    PrefixedStep(m, LESS_THAN, p, known);
    assert OrEmpty(m.title) + (ESCAPED_LT + p) == OrEmpty(m.title) + ESCAPED_LT + p;
  }

  /** One byte in `content` or `contentspace` is the content step. */
  lemma ContentStep(m: Machine, c: byte, known: bytes -> bool)
    requires (m.state.Content? || m.state.ContentSpace?) && Valid(m)
    ensures Step(m, c, known) == Outcome(StepContent(m, c), false)
  {
    assert !InScript(m.state) && !InStyle(m.state);
  }

  /** One byte in `tag` is the tag step. */
  lemma TagStep(m: Machine, c: byte, known: bytes -> bool)
    requires m.state.Tag? && Valid(m)
    ensures Step(m, c, known) == Outcome(StepTag(m, c), false)
  {
    assert !InScript(m.state) && !InStyle(m.state);
  }

  /** One byte in `tagslash`, `tagbang` or `tagbangdash` is the prefixed step. */
  lemma PrefixedStep(m: Machine, c: byte, p: bytes, known: bytes -> bool)
    requires Valid(m)
    requires m.state == (if p == [SLASH] then TagSlash else if p == [BANG] then TagBang else TagBangDash)
    requires p == [SLASH] || p == [BANG] || p == [BANG, DASH]
    ensures Step(m, c, known) ==
      Outcome(StepPrefixed(m, c, p, if p == [SLASH] then None else if p == [BANG] then Some(TagBangDash) else Some(Comment), known), false)
  {
    assert !InScript(m.state) && !InStyle(m.state);
  }

  /** In `tagname` a byte is handled by the tag-name step. */
  lemma TagNameStep(m: Machine, c: byte, known: bytes -> bool)
    requires m.state.TagName? && Valid(m)
    ensures Step(m, c, known) == StepTagName(m, c, known)
  {
  }

  /** In `tagname` every byte that is not a delimiter is appended to the tag name and nothing else happens. */
  lemma {:induction false} TagNameRun(m: Machine, name: bytes, known: bytes -> bool)
    requires m.state.TagName? && Valid(m)
    requires forall i :: 0 <= i < |name| ==> !Delimits(name[i])
    ensures Run(m, name, known) == Outcome(m.(lastTag := m.lastTag + name), false)
    decreases |name|
  {
    if name == [] {
      assert m.lastTag + name == m.lastTag;
    } else {
      var m1 := m.(lastTag := m.lastTag + [name[0]]);
      assert StepTagName(m, name[0], known) == Outcome(m1, false);
      assert Step(m, name[0], known) == Outcome(m1, false);
      RunCons(m, name[0], name[1..], known);
      assert [name[0]] + name[1..] == name;
      TagNameRun(m1, name[1..], known);
      assert m1.lastTag + name[1..] == m.lastTag + name;
    }
  }

  // ---------------------------------------------------------------------
  // Attributes

  /** In `attrname` every byte that does not end the name is appended to it and nothing else happens. */
  lemma {:induction false} AttrNameRun(m: Machine, name: bytes, known: bytes -> bool)
    requires m.state.AttrName? && Valid(m)
    requires forall i :: 0 <= i < |name| ==> !EndsAttrName(name[i])
    ensures Run(m, name, known) == Outcome(m.(lastAttr := m.lastAttr + name), false)
    decreases |name|
  {
    if name == [] {
      assert m.lastAttr + name == m.lastAttr;
    } else {
      var m1 := m.(lastAttr := m.lastAttr + [name[0]]);
      assert !InScript(m.state) && !InStyle(m.state);
      assert Step(m, name[0], known) == Outcome(StepAttrName(m, name[0], known), false);
      assert Run(m, name, known) == Run(m1, name[1..], known);
      AttrNameRun(m1, name[1..], known);
      assert m1.lastAttr + name[1..] == m.lastAttr + name;
    }
  }

  /** In `attrvalue` every byte that is no delimiter and no `"` is appended to the value and nothing else happens. */
  lemma {:induction false} AttrValueRun(m: Machine, value: bytes, known: bytes -> bool)
    requires m.state.AttrValue? && Valid(m)
    requires forall i :: 0 <= i < |value| ==> !Delimits(value[i]) && value[i] != QUOTE
    ensures Run(m, value, known) == Outcome(m.(lastValue := Some(m.lastValue.value + value)), false)
    decreases |value|
  {
    if value == [] {
      assert m.lastValue.value + value == m.lastValue.value;
    } else {
      var m1 := m.(lastValue := Some(m.lastValue.value + [value[0]]));
      assert !InScript(m.state) && !InStyle(m.state);
      assert Step(m, value[0], known) == Outcome(StepAttrValue(m, value[0], known), false);
      assert Run(m, value, known) == Run(m1, value[1..], known);
      AttrValueRun(m1, value[1..], known);
      assert m1.lastValue.value + value[1..] == m.lastValue.value + value;
    }
  }

  /**
   * `name=value` followed by whitespace records the value under the
   * lower-cased name and waits for the next attribute; followed by `>` it
   * records it and then finishes the tag with that attribute map, the name
   * and value still pending as the source leaves them.
   */
  lemma AttributeRecorded(m: Machine, name: bytes, value: bytes, c: byte, known: bytes -> bool)
    requires m.state.AttrName? && Valid(m) && m.lastAttr == []
    requires name != [] && forall i :: 0 <= i < |name| ==> !EndsAttrName(name[i])
    requires forall i :: 0 <= i < |value| ==> !Delimits(value[i]) && value[i] != QUOTE
    requires IsSpace(c) || c == GREATER_THAN
    ensures
      var o := Run(m, name + [EQUALS] + value + [c], known);
      var attrs := Some(m.lastAttrs.value[Lower(name) := Some(value)]);
      && !o.raised
      && (IsSpace(c) ==> o.m == m.(lastAttrs := attrs, lastValue := None))
      && (c == GREATER_THAN ==>
            var pending := m.(lastAttrs := attrs, lastAttr := name, lastValue := Some(value), state := AttrValue);
            o.m == FinishTag(pending, m.lastTag, known).(state := AfterTag(m.lastTag)))
  {
    var m1 := m.(lastAttr := name);
    var m2 := m1.(lastValue := Some([]), state := AttrValue);
    var m3 := m2.(lastValue := Some(value));
    var r := StepAttrValue(m3, c, known);
    AttrNameRun(m, name, known);
    RunOne(m1, EQUALS, known);
    EqualsStartsValue(m1, known);
    RunThen(m, name, [EQUALS], m1, m2, known);
    AttrValueRun(m2, value, known);
    assert [] + value == value;
    RunThen(m, name + [EQUALS], value, m2, m3, known);
    RunOne(m3, c, known);
    AttrValueStep(m3, c, known);
    if c == GREATER_THAN {
      StepAttrValueCloses(m3, known);
    }
    RunThen(m, name + [EQUALS] + value, [c], m3, r, known);
    assert WithAttr(m3, name, Some(value)) == Some(m.lastAttrs.value[Lower(name) := Some(value)]);
  }

  /** Running `a` to `x` and then `b` from `x` to `y` runs `a + b` to `y`. */
  lemma RunThen(m: Machine, a: bytes, b: bytes, x: Machine, y: Machine, known: bytes -> bool)
    requires Valid(m) && Valid(x)
    requires Run(m, a, known) == Outcome(x, false) && Run(x, b, known) == Outcome(y, false)
    ensures Run(m, a + b, known) == Outcome(y, false)
  {
    RunConcat(m, a, b, known);
  }

  /** In `attrname`, `=` starts an empty value. */
  lemma EqualsStartsValue(m: Machine, known: bytes -> bool)
    requires m.state.AttrName? && Valid(m)
    ensures Step(m, EQUALS, known) == Outcome(m.(lastValue := Some([]), state := AttrValue), false)
  {
    assert !InScript(m.state) && !InStyle(m.state);
    assert Step(m, EQUALS, known) == Outcome(StepAttrName(m, EQUALS, known), false);
  }

  /** In `attrvalue` a byte is handled by the attribute-value step. */
  lemma AttrValueStep(m: Machine, c: byte, known: bytes -> bool)
    requires m.state.AttrValue? && Valid(m)
    ensures Step(m, c, known) == Outcome(StepAttrValue(m, c, known), false)
  {
    assert !InScript(m.state) && !InStyle(m.state);
  }

  /** `<title>` in content, before any title has been captured, starts title capture and returns to content. */
  lemma OpenTitle(m: Machine, known: bytes -> bool)
    requires m.state.Content? && m.title.None? && Valid(m)
    ensures Run(m, [LESS_THAN] + TITLE + [GREATER_THAN], known)
         == Outcome(m.(lastTag := TITLE, lastAttr := [], lastValue := None, lastAttrs := None, insideTitle := true), false)
  {
    var itle := TITLE[1..];
    var a1 := BeginTag(m);
    ContentOpensTag(m, known);
    var a2 := a1.(lastTag := [TITLE[0]], state := TagName);
    TagStartsName(a1, TITLE[0], known);
    TagNameRun(a2, itle, known);
    var a3 := a2.(lastTag := TITLE);
    assert a2.lastTag + itle == TITLE;
    var a4 := m.(lastTag := TITLE, lastAttr := [], lastValue := None, lastAttrs := None, insideTitle := true);
    TitleTagCloses(a3, known);
    TagNameStep(a3, GREATER_THAN, known);
    assert a3.(lastAttrs := None, insideTitle := true, state := Content) == a4;
    OpenTitleRun(m, a1, a2, a3, a4, known);
  }

  /** `>` after the tag name `title`, with no title captured, starts title capture. */
  lemma TitleTagCloses(m: Machine, known: bytes -> bool)
    requires m.state.TagName? && m.lastTag == TITLE && m.title.None?
    ensures StepTagName(m, GREATER_THAN, known)
         == Outcome(m.(lastAttrs := None, insideTitle := true, state := Content), false)
  {
    TitleNamesLowerCase();
    var m1 := m.(lastAttrs := Some(map[]), insideTitle := true);
    assert StartTag(m, TITLE) == Outcome(m1, false);
    assert FinishTag(m1, TITLE, known) == m1.(lastAttrs := None);
    assert AfterTag(TITLE) == Content;
  }

  /** `>` after the tag name `/title`, with no title captured, raises. */
  lemma SlashTitleTagRaises(m: Machine, known: bytes -> bool)
    requires m.state.TagName? && m.lastTag == SLASH_TITLE && m.title.None?
    ensures StepTagName(m, GREATER_THAN, known).raised
  {
    TitleNamesLowerCase();
    assert StartTag(m, SLASH_TITLE).raised;
  }

  /** `</title>` in content while no title has been captured raises. */
  lemma CloseTitle(m: Machine, known: bytes -> bool)
    requires m.state.Content? && m.title.None? && Valid(m)
    ensures Run(m, [LESS_THAN] + SLASH_TITLE + [GREATER_THAN], known).raised
  {
    var tle := SLASH_TITLE[2..];
    var b1 := BeginTag(m);
    ContentOpensTag(m, known);
    var b2 := b1.(state := TagSlash);
    TagOpensSlash(b1, known);
    var b3 := b2.(lastTag := [SLASH, SLASH_TITLE[1]], state := TagName);
    SlashStartsName(b2, SLASH_TITLE[1], known);
    TagNameRun(b3, tle, known);
    var b4 := b3.(lastTag := SLASH_TITLE);
    assert b3.lastTag + tle == SLASH_TITLE;
    SlashTitleTagRaises(b4, known);
    TagNameStep(b4, GREATER_THAN, known);
    CloseTitleRaises(m, b1, b2, b3, b4, known);
  }

  /**
   * `<title></title>` raises wherever it appears in content before a title
   * was captured, at the start of a document for one: the fault needs no
   * malformed input.
   */
  lemma EmptyTitleRaises(m: Machine, known: bytes -> bool)
    requires m.state.Content? && m.title.None? && Valid(m)
    ensures Run(m, [LESS_THAN] + TITLE + [GREATER_THAN] + [LESS_THAN] + SLASH_TITLE + [GREATER_THAN], known).raised
  {
    var open := [LESS_THAN] + TITLE + [GREATER_THAN];
    var close := [LESS_THAN] + SLASH_TITLE + [GREATER_THAN];
    var a4 := m.(lastTag := TITLE, lastAttr := [], lastValue := None, lastAttrs := None, insideTitle := true);
    assert Run(m, open, known) == Outcome(a4, false) by { OpenTitle(m, known); }
    assert Run(a4, close, known).raised by { CloseTitle(a4, known); }
    assert Run(m, open + close, known).raised by { RunConcat(m, open, close, known); }
    assert open + close == [LESS_THAN] + TITLE + [GREATER_THAN] + [LESS_THAN] + SLASH_TITLE + [GREATER_THAN];
  }

  lemma OpenTitleRun(m: Machine, a1: Machine, a2: Machine, a3: Machine, a4: Machine, known: bytes -> bool)
    requires Valid(m) && Valid(a1) && Valid(a2) && Valid(a3)
    requires Step(m, LESS_THAN, known) == Outcome(a1, false)
    requires Step(a1, TITLE[0], known) == Outcome(a2, false)
    requires Run(a2, TITLE[1..], known) == Outcome(a3, false)
    requires Step(a3, GREATER_THAN, known) == Outcome(a4, false)
    ensures Run(m, [LESS_THAN] + TITLE + [GREATER_THAN], known) == Outcome(a4, false)
  {
    var t := TITLE[1..] + [GREATER_THAN];
    assert Run(a3, [GREATER_THAN], known) == Outcome(a4, false) by { RunOne(a3, GREATER_THAN, known); }
    assert Run(a2, t, known) == Outcome(a4, false) by { RunThen(a2, TITLE[1..], [GREATER_THAN], a3, a4, known); }
    assert Run(a1, [TITLE[0]] + t, known) == Outcome(a4, false) by { RunCons(a1, TITLE[0], t, known); }
    assert Run(m, [LESS_THAN] + ([TITLE[0]] + t), known) == Outcome(a4, false) by {
      RunCons(m, LESS_THAN, [TITLE[0]] + t, known);
    }
    assert [LESS_THAN] + TITLE + [GREATER_THAN] == [LESS_THAN] + ([TITLE[0]] + t);
  }

  lemma CloseTitleRaises(a4: Machine, b1: Machine, b2: Machine, b3: Machine, b4: Machine, known: bytes -> bool)
    requires Valid(a4) && Valid(b1) && Valid(b2) && Valid(b3)
    requires Step(a4, LESS_THAN, known) == Outcome(b1, false)
    requires Step(b1, SLASH, known) == Outcome(b2, false)
    requires Step(b2, SLASH_TITLE[1], known) == Outcome(b3, false)
    requires Run(b3, SLASH_TITLE[2..], known) == Outcome(b4, false)
    requires Step(b4, GREATER_THAN, known).raised
    ensures Run(a4, [LESS_THAN] + SLASH_TITLE + [GREATER_THAN], known).raised
  {
    var s := [LESS_THAN] + SLASH_TITLE + [GREATER_THAN];
    assert s == [LESS_THAN] + ([SLASH] + ([SLASH_TITLE[1]] + (SLASH_TITLE[2..] + [GREATER_THAN])));
    RunCons(a4, LESS_THAN, [SLASH] + ([SLASH_TITLE[1]] + (SLASH_TITLE[2..] + [GREATER_THAN])), known);
    RunCons(b1, SLASH, [SLASH_TITLE[1]] + (SLASH_TITLE[2..] + [GREATER_THAN]), known);
    RunCons(b2, SLASH_TITLE[1], SLASH_TITLE[2..] + [GREATER_THAN], known);
    RunConcat(b3, SLASH_TITLE[2..], [GREATER_THAN], known);
    assert [GREATER_THAN][0] == GREATER_THAN;
  }

  // ---------------------------------------------------------------------
  // Raw text and comments

  /** Whether `s` is one of the states that scan for a closing literal. */
  predicate Scanning(s: State)
  {
    s.Comment? || s.CommentDash? || s.CommentDashDash? || InScript(s) || InStyle(s)
  }

  /** The literal a scanning state is looking for. */
  function Literal(s: State): bytes
    requires Scanning(s)
  {
    if InScript(s) then CLOSE_SCRIPT else if InStyle(s) then CLOSE_STYLE else CLOSE_COMMENT
  }

  /** The chain of states that scans for `lit`, one per byte matched so far. */
  function Chain(lit: bytes): seq<State>
  {
    if lit == CLOSE_SCRIPT then
      [Script, ScriptTag, ScriptTagSlash, ScriptTagSlashS, ScriptTagSlashSc, ScriptTagSlashScr,
       ScriptTagSlashScri, ScriptTagSlashScrip, ScriptTagSlashScript]
    else if lit == CLOSE_STYLE then
      [Style, StyleTag, StyleTagSlash, StyleTagSlashS, StyleTagSlashSt, StyleTagSlashSty,
       StyleTagSlashStyl, StyleTagSlashStyle]
    else [Comment, CommentDash, CommentDashDash]
  }

  /** How many bytes of its literal a scanning state has matched. */
  function Matched(s: State): (k: nat)
    requires Scanning(s)
    ensures k < |Literal(s)| && |Chain(Literal(s))| == |Literal(s)| && Chain(Literal(s))[k] == s
  {
    match s
    case Comment => 0 case CommentDash => 1 case CommentDashDash => 2
    case Script => 0 case ScriptTag => 1 case ScriptTagSlash => 2 case ScriptTagSlashS => 3
    case ScriptTagSlashSc => 4 case ScriptTagSlashScr => 5 case ScriptTagSlashScri => 6
    case ScriptTagSlashScrip => 7 case ScriptTagSlashScript => 8
    case Style => 0 case StyleTag => 1 case StyleTagSlash => 2 case StyleTagSlashS => 3
    case StyleTagSlashSt => 4 case StyleTagSlashSty => 5 case StyleTagSlashStyl => 6
    case StyleTagSlashStyle => 7
  }

  /**
   * What completing `lit` does: back to content, after a synthesised
   * `</script>` or `</style>` for raw text, which touches nothing but the
   * tag fields.
   */
  function Close(lit: bytes, m: Machine): Machine
  {
    if lit == CLOSE_SCRIPT then m.(lastTag := SLASH_SCRIPT, lastAttrs := None, state := Content)
    else if lit == CLOSE_STYLE then m.(lastTag := SLASH_STYLE, lastAttrs := None, state := Content)
    else m.(state := Content)
  }

  /**
   * Every byte in a comment, script or style state moves along the chain
   * exactly as the reference matcher moves along the literal: a match steps
   * forward, a mismatch goes back to the base state, and only completing
   * the literal does anything beyond changing the state.
   */
  lemma ScanningStep(m: Machine, c: byte, known: bytes -> bool)
    requires Scanning(m.state)
    ensures
      var lit := Literal(m.state);
      var n := Advance(lit, Matched(m.state), c);
      Step(m, c, known)
      == Outcome(if n == |lit| then Close(lit, m) else m.(state := Chain(lit)[n]), false)
  {
    if InScript(m.state) {
      assert Step(m, c, known) == Outcome(StepScript(m, c, known), false);
      ScriptStep(m, c, known);
    } else if InStyle(m.state) {
      assert Step(m, c, known) == Outcome(StepStyle(m, c, known), false);
      StyleStep(m, c, known);
    } else {
      assert Step(m, c, known) == Outcome(StepComment(m, c), false);
    }
  }

  /** A letter test of the unrolled chain is the lower-cased comparison of the matcher. */
  lemma LetterIsLower(c: byte, lower: byte)
    requires 0x61 <= lower <= 0x7A
    ensures IsLetter(c, lower) <==> LowerByte(c) == lower
  {
  }

  lemma ScriptStep(m: Machine, c: byte, known: bytes -> bool)
    requires InScript(m.state)
    ensures
      var n := Advance(CLOSE_SCRIPT, Matched(m.state), c);
      StepScript(m, c, known)
      == if n == |CLOSE_SCRIPT| then Close(CLOSE_SCRIPT, m) else m.(state := Chain(CLOSE_SCRIPT)[n])
  {
    var k := Matched(m.state);
    if 2 <= k < 8 {
      ScriptLetterStep(m, c, known);
    }
  }

  /** The letters of `</script>`: a match moves one state on, anything else goes back to `script`. */
  lemma ScriptLetterStep(m: Machine, c: byte, known: bytes -> bool)
    requires InScript(m.state) && 2 <= Matched(m.state) < 8
    ensures
      var n := Advance(CLOSE_SCRIPT, Matched(m.state), c);
      n < |CLOSE_SCRIPT| && StepScript(m, c, known) == m.(state := Chain(CLOSE_SCRIPT)[n])
  {
    LetterIsLower(c, CLOSE_SCRIPT[Matched(m.state)]);
  }

  lemma StyleStep(m: Machine, c: byte, known: bytes -> bool)
    requires InStyle(m.state)
    ensures
      var n := Advance(CLOSE_STYLE, Matched(m.state), c);
      StepStyle(m, c, known)
      == if n == |CLOSE_STYLE| then Close(CLOSE_STYLE, m) else m.(state := Chain(CLOSE_STYLE)[n])
  {
    var k := Matched(m.state);
    if 2 <= k < 7 {
      StyleLetterStep(m, c, known);
    }
  }

  /** The letters of `</style>`: a match moves one state on, anything else goes back to `style`. */
  lemma StyleLetterStep(m: Machine, c: byte, known: bytes -> bool)
    requires InStyle(m.state) && 2 <= Matched(m.state) < 7
    ensures
      var n := Advance(CLOSE_STYLE, Matched(m.state), c);
      n < |CLOSE_STYLE| && StepStyle(m, c, known) == m.(state := Chain(CLOSE_STYLE)[n])
  {
    LetterIsLower(c, CLOSE_STYLE[Matched(m.state)]);
  }

  /**
   * Reading bytes that do not complete the literal changes nothing but the
   * state: no content, tag or metadata event happens inside a comment,
   * script or style, and the state is where the reference matcher ends.
   */
  lemma {:induction false} ScanningQuiet(m: Machine, s: bytes, known: bytes -> bool)
    requires Scanning(m.state) && Open(Literal(m.state), Matched(m.state), s)
    ensures Run(m, s, known)
         == Outcome(m.(state := Chain(Literal(m.state))[Scan(Literal(m.state), Matched(m.state), s)]), false)
    decreases |s|
  {
    if s != [] {
      var lit := Literal(m.state);
      var n := Advance(lit, Matched(m.state), s[0]);
      ScanningStep(m, s[0], known);
      var m1 := m.(state := Chain(lit)[n]);
      assert Scanning(m1.state) && Literal(m1.state) == lit && Matched(m1.state) == n by {
        ChainIndex(lit, n);
      }
      ScanningQuiet(m1, s[1..], known);
    }
  }

  /** Each state of a chain knows its literal and its position in it. */
  lemma ChainIndex(lit: bytes, n: nat)
    requires lit == CLOSE_COMMENT || lit == CLOSE_SCRIPT || lit == CLOSE_STYLE
    requires n < |lit|
    ensures |Chain(lit)| == |lit|
    ensures Scanning(Chain(lit)[n]) && Literal(Chain(lit)[n]) == lit && Matched(Chain(lit)[n]) == n
  {
  }

  /** Every literal is one of the three. */
  lemma LiteralIsKnown(s: State)
    requires Scanning(s)
    ensures Literal(s) == CLOSE_COMMENT || Literal(s) == CLOSE_SCRIPT || Literal(s) == CLOSE_STYLE
  {
  }

  /**
   * The rest of the literal, in any ASCII case, closes: the closing tag is
   * synthesised (for raw text) and the machine is back in content.
   */
  lemma {:induction false} ScanningCloses(m: Machine, s: bytes, known: bytes -> bool)
    requires Scanning(m.state)
    requires Matched(m.state) + |s| == |Literal(m.state)| && Lower(s) == Literal(m.state)[Matched(m.state)..]
    ensures Run(m, s, known) == Outcome(Close(Literal(m.state), m), false)
    decreases |s|, 1
  {
    var lit := Literal(m.state);
    var k := Matched(m.state);
    assert LowerByte(s[0]) == lit[k] by {
      assert Lower(s)[0] == LowerByte(s[0]) && lit[k..][0] == lit[k];
    }
    if |s| == 1 {
      ScanningClosesLast(m, s[0], known);
      assert [s[0]] == s;
    } else {
      ScanningValid(m);
      ScanningClosesMore(m, s, known);
    }
  }

  /** A matching byte that is not the last of the literal moves one state along; the rest closes from there. */
  lemma {:induction false} ScanningClosesMore(m: Machine, s: bytes, known: bytes -> bool)
    requires Scanning(m.state) && Valid(m) && |s| > 1
    requires Matched(m.state) + |s| == |Literal(m.state)| && Lower(s) == Literal(m.state)[Matched(m.state)..]
    requires LowerByte(s[0]) == Literal(m.state)[Matched(m.state)]
    ensures Run(m, s, known) == Outcome(Close(Literal(m.state), m), false)
    decreases |s|, 0
  {
    var lit := Literal(m.state);
    var k := Matched(m.state);
    assert Lower(s[1..]) == lit[k + 1..] by {
      LowerTail(s);
      assert lit[k..][1..] == lit[k + 1..];
    }
    var m1 := m.(state := Chain(lit)[k + 1]);
    ScanningMatches(m, s[0], known);
    assert Run(m, s, known) == Run(m1, s[1..], known);
    ScanningCloses(m1, s[1..], known);
  }

  lemma ScanningValid(m: Machine)
    requires Scanning(m.state)
    ensures Valid(m)
  {
  }

  lemma LowerTail(s: bytes)
    requires s != []
    ensures Lower(s[1..]) == Lower(s)[1..]
  {
  }

  /** The last byte of the literal closes. */
  lemma ScanningClosesLast(m: Machine, c: byte, known: bytes -> bool)
    requires Scanning(m.state)
    requires Matched(m.state) + 1 == |Literal(m.state)| && LowerByte(c) == Literal(m.state)[Matched(m.state)]
    ensures Run(m, [c], known) == Outcome(Close(Literal(m.state), m), false)
  {
    RunOne(m, c, known);
    assert c == GREATER_THAN;
    if m.state.CommentDashDash? {
      assert Step(m, c, known) == Outcome(StepComment(m, c), false);
      assert StepComment(m, c) == Close(CLOSE_COMMENT, m);
    } else if m.state.ScriptTagSlashScript? {
      assert Step(m, c, known) == Outcome(StepScript(m, c, known), false);
      assert StepScript(m, c, known) == Close(CLOSE_SCRIPT, m);
    } else {
      assert m.state.StyleTagSlashStyle?;
      assert Step(m, c, known) == Outcome(StepStyle(m, c, known), false);
      assert StepStyle(m, c, known) == Close(CLOSE_STYLE, m);
    }
  }

  /** A byte that matches the next one of the literal, not the last, moves one state along the chain. */
  lemma ScanningMatches(m: Machine, c: byte, known: bytes -> bool)
    requires Scanning(m.state) && Matched(m.state) + 1 < |Literal(m.state)|
    requires LowerByte(c) == Literal(m.state)[Matched(m.state)]
    ensures
      var lit := Literal(m.state);
      var k := Matched(m.state);
      && Step(m, c, known) == Outcome(m.(state := Chain(lit)[k + 1]), false)
      && Scanning(Chain(lit)[k + 1]) && Literal(Chain(lit)[k + 1]) == lit && Matched(Chain(lit)[k + 1]) == k + 1
  {
    var lit := Literal(m.state);
    var k := Matched(m.state);
    ScanningStep(m, c, known);
    assert Advance(lit, k, c) == k + 1;
    LiteralIsKnown(m.state);
    ChainIndex(lit, k + 1);
  }

  /** `--->` does not close a comment: the third dash sends the matcher back to the start. */
  lemma TripleDashLeavesCommentOpen(m: Machine, known: bytes -> bool)
    requires m.state.Comment?
    ensures Run(m, [DASH, DASH, DASH, GREATER_THAN], known) == Outcome(m, false)
  {
    var s: bytes := [DASH, DASH, DASH, GREATER_THAN];
    assert Open(CLOSE_COMMENT, 0, s);
    ScanningQuiet(m, s, known);
  }

  /** `<</script>` does not leave a script: the second `<` resets the matcher, which never looks at it again. */
  lemma DoubleLessThanMissesScriptEnd(m: Machine, known: bytes -> bool)
    requires m.state.Script?
    ensures Run(m, [LESS_THAN] + CLOSE_SCRIPT, known) == Outcome(m, false)
  {
    DoubleLessThanScan();
    ScanningQuiet(m, [LESS_THAN] + CLOSE_SCRIPT, known);
  }

  /** The matcher for `</script>` run over `<</script>` never completes. */
  lemma DoubleLessThanScan()
    ensures Open(CLOSE_SCRIPT, 0, [LESS_THAN] + CLOSE_SCRIPT)
    ensures Scan(CLOSE_SCRIPT, 0, [LESS_THAN] + CLOSE_SCRIPT) == 0
  {
    var s: bytes := [0x3C, 0x3C, 0x2F, 0x73, 0x63, 0x72, 0x69, 0x70, 0x74, 0x3E];
    assert s == [LESS_THAN] + CLOSE_SCRIPT;
    var lit := CLOSE_SCRIPT;
    assert Open(lit, 0, s[2..]) && Scan(lit, 0, s[2..]) == 0 by {
      assert Open(lit, 0, s[10..]) && Scan(lit, 0, s[10..]) == 0;
      assert Open(lit, 0, s[9..]) && Scan(lit, 0, s[9..]) == 0 by { assert s[9..][1..] == s[10..]; }
      assert Open(lit, 0, s[8..]) && Scan(lit, 0, s[8..]) == 0 by { assert s[8..][1..] == s[9..]; }
      assert Open(lit, 0, s[7..]) && Scan(lit, 0, s[7..]) == 0 by { assert s[7..][1..] == s[8..]; }
      assert Open(lit, 0, s[6..]) && Scan(lit, 0, s[6..]) == 0 by { assert s[6..][1..] == s[7..]; }
      assert Open(lit, 0, s[5..]) && Scan(lit, 0, s[5..]) == 0 by { assert s[5..][1..] == s[6..]; }
      assert Open(lit, 0, s[4..]) && Scan(lit, 0, s[4..]) == 0 by { assert s[4..][1..] == s[5..]; }
      assert Open(lit, 0, s[3..]) && Scan(lit, 0, s[3..]) == 0 by { assert s[3..][1..] == s[4..]; }
      assert s[2..][1..] == s[3..];
    }
    assert Open(lit, 1, s[1..]) && Scan(lit, 1, s[1..]) == 0 by { assert s[1..][1..] == s[2..]; }
  }

  /**
   * A `>` enters raw text exactly when it closes a tag that lower-cases to
   * `script` (or `style`) from `tagname`, `attrname`, `attrvalue` or
   * `attrvalueslash`; `tagnameslash` and `attrnameslash` go to content.
   */
  lemma RawTextEntered(m: Machine, c: byte, known: bytes -> bool)
    requires Valid(m) && !Scanning(m.state)
    ensures Step(m, c, known).m.state.Script? <==>
      (m.state.TagName? || m.state.AttrName? || m.state.AttrValue? || m.state.AttrValueSlash?)
      && c == GREATER_THAN && Lower(m.lastTag) == SCRIPT
    ensures Step(m, c, known).m.state.Style? <==>
      (m.state.TagName? || m.state.AttrName? || m.state.AttrValue? || m.state.AttrValueSlash?)
      && c == GREATER_THAN && Lower(m.lastTag) == STYLE
  {
    if m.state.TagName? || m.state.AttrName? || m.state.AttrValue? || m.state.AttrValueSlash? {
      EntersRawText(m, c, known);
    } else {
      StaysOutOfRawText(m, c, known);
    }
  }

  lemma EntersRawText(m: Machine, c: byte, known: bytes -> bool)
    requires m.state.TagName? || m.state.AttrName? || m.state.AttrValue? || m.state.AttrValueSlash?
    requires Valid(m)
    ensures Step(m, c, known).m.state.Script? <==> c == GREATER_THAN && Lower(m.lastTag) == SCRIPT
    ensures Step(m, c, known).m.state.Style? <==> c == GREATER_THAN && Lower(m.lastTag) == STYLE
  {
    if m.state.TagName? {
      TagNameEntersRawText(m, c, known);
    } else if m.state.AttrName? {
      AttrNameEntersRawText(m, c, known);
    } else if m.state.AttrValue? {
      AttrValueEntersRawText(m, c, known);
    } else {
      AttrValueSlashEntersRawText(m, c, known);
    }
  }

  lemma TagNameEntersRawText(m: Machine, c: byte, known: bytes -> bool)
    requires m.state.TagName? && Valid(m)
    ensures Step(m, c, known).m.state.Script? <==> c == GREATER_THAN && Lower(m.lastTag) == SCRIPT
    ensures Step(m, c, known).m.state.Style? <==> c == GREATER_THAN && Lower(m.lastTag) == STYLE
  {
    assert Step(m, c, known) == StepTagName(m, c, known);
    if c == GREATER_THAN {
      assert StepTagName(m, c, known) == CloseTag(m, AfterTag(m.lastTag), known);
      if Lower(m.lastTag) == SCRIPT || Lower(m.lastTag) == STYLE {
        assert !StartTag(m, m.lastTag).raised;
      }
    }
  }

  lemma AttrNameEntersRawText(m: Machine, c: byte, known: bytes -> bool)
    requires m.state.AttrName? && Valid(m)
    ensures Step(m, c, known).m.state.Script? <==> c == GREATER_THAN && Lower(m.lastTag) == SCRIPT
    ensures Step(m, c, known).m.state.Style? <==> c == GREATER_THAN && Lower(m.lastTag) == STYLE
  {
    var r := StepAttrName(m, c, known);
    assert Step(m, c, known).m == r;
    if IsSpace(c) {
      var m1 := DispatchAttr(m, m.lastTag, m.lastAttr, None);
      assert r == m1.(lastAttr := [], lastValue := None);
    } else if c == LESS_THAN {
      var m1 := DispatchAttr(m, m.lastTag, m.lastAttr, None);
      assert r == Restart(m1);
    } else if c == GREATER_THAN {
      var m1 := DispatchAttr(m, m.lastTag, m.lastAttr, None);
      assert r == FinishTag(m1, m.lastTag, known).(state := AfterTag(m.lastTag));
    }
  }

  lemma AttrValueEntersRawText(m: Machine, c: byte, known: bytes -> bool)
    requires m.state.AttrValue? && Valid(m)
    ensures Step(m, c, known).m.state.Script? <==> c == GREATER_THAN && Lower(m.lastTag) == SCRIPT
    ensures Step(m, c, known).m.state.Style? <==> c == GREATER_THAN && Lower(m.lastTag) == STYLE
  {
    var r := StepAttrValue(m, c, known);
    assert Step(m, c, known).m == r;
    if IsSpace(c) {
      var m1 := DispatchAttr(m, m.lastTag, m.lastAttr, m.lastValue);
      assert r == m1.(lastAttr := [], lastValue := None, state := AttrName);
    } else if c == LESS_THAN {
      var m1 := DispatchAttr(m, m.lastTag, m.lastAttr, m.lastValue);
      assert r == Restart(m1);
    } else if c == GREATER_THAN {
      var m1 := DispatchAttr(m, m.lastTag, m.lastAttr, m.lastValue);
      assert r == FinishTag(m1, m.lastTag, known).(state := AfterTag(m.lastTag));
    }
  }

  lemma AttrValueSlashEntersRawText(m: Machine, c: byte, known: bytes -> bool)
    requires m.state.AttrValueSlash? && Valid(m)
    ensures Step(m, c, known).m.state.Script? <==> c == GREATER_THAN && Lower(m.lastTag) == SCRIPT
    ensures Step(m, c, known).m.state.Style? <==> c == GREATER_THAN && Lower(m.lastTag) == STYLE
  {
    var r := StepAttrValueSlash(m, c, known);
    assert Step(m, c, known).m == r;
    if IsSpace(c) {
      var m1 := DispatchAttr(m, m.lastTag, m.lastAttr, Some(m.lastValue.value + [SLASH]));
      assert r == m1.(lastAttr := [], lastValue := None, state := AttrName);
    } else if c == LESS_THAN {
      var m1 := DispatchAttr(m, m.lastTag, m.lastAttr, m.lastValue);
      assert r == Restart(m1);
    } else if c == GREATER_THAN {
      var m1 := DispatchAttr(m, m.lastTag, m.lastAttr, m.lastValue);
      assert r == FinishTag(m1, m.lastTag, known).(state := AfterTag(m.lastTag));
    }
  }

  lemma StaysOutOfRawText(m: Machine, c: byte, known: bytes -> bool)
    requires !(m.state.TagName? || m.state.AttrName? || m.state.AttrValue? || m.state.AttrValueSlash?)
    requires Valid(m) && !Scanning(m.state)
    ensures !Step(m, c, known).m.state.Script? && !Step(m, c, known).m.state.Style?
  {
    if m.state.TagNameSlash? {
      assert Step(m, c, known) == StepTagNameSlash(m, c, known);
    } else if m.state.AttrNameSlash? {
      assert Step(m, c, known).m == StepAttrNameSlash(m, c, known);
    }
  }

  // ---------------------------------------------------------------------
  // First match wins

  /**
   * How the metadata may change over time: a captured title only grows, the
   * charset, description and Open Graph fields are never overwritten once
   * set, the head flag is never cleared, and title capture starts only
   * while no title exists.
   */
  predicate Grows(m: Machine, n: Machine)
  {
    && (m.title.Some? ==> n.title.Some? && m.title.value <= n.title.value)
    && (m.charset.Some? ==> n.charset == m.charset && n.effCharset == m.effCharset)
    && (m.description.Some? ==> n.description == m.description)
    && (m.ogTitle.Some? ==> n.ogTitle == m.ogTitle)
    && (m.ogDescription.Some? ==> n.ogDescription == m.ogDescription)
    && (m.headDone ==> n.headDone)
    && (n.insideTitle && !m.insideTitle ==> m.title.None?)
  }

  /** One byte keeps the metadata growing, whatever the state. */
  lemma StepGrows(m: Machine, c: byte, known: bytes -> bool)
    requires Valid(m)
    ensures Grows(m, Step(m, c, known).m)
  {
    if m.state.TagSlash? || m.state.TagBang? || m.state.TagBangDash? || InTagName(m.state) {
      TagStepGrows(m, c, known);
    } else if InAttr(m.state) {
      AttrStepGrows(m, c, known);
    } else if InScript(m.state) || InStyle(m.state) {
      RawStepGrows(m, c, known);
    } else {
      TextStepGrows(m, c, known);
    }
  }

  lemma TextStepGrows(m: Machine, c: byte, known: bytes -> bool)
    requires m.state.Content? || m.state.ContentSpace? || m.state.Tag?
          || m.state.Comment? || m.state.CommentDash? || m.state.CommentDashDash?
    ensures Grows(m, Step(m, c, known).m)
  {
    assert !InScript(m.state) && !InStyle(m.state);
    match m.state
    case Content | ContentSpace =>
      assert Step(m, c, known).m == StepContent(m, c);
      ContentGrows(m, c);
    case Tag =>
      assert Step(m, c, known).m == StepTag(m, c);
      TagGrows(m, c);
    case Comment | CommentDash | CommentDashDash =>
      assert Step(m, c, known).m == StepComment(m, c);
  }

  lemma ContentGrows(m: Machine, c: byte)
    requires m.state.Content? || m.state.ContentSpace?
    ensures Grows(m, StepContent(m, c))
  {
    DispatchContentGrows(m, [SPACE], ContentSpace);
    DispatchContentGrows(m, [c], Content);
  }

  lemma TagGrows(m: Machine, c: byte)
    requires m.state.Tag?
    ensures Grows(m, StepTag(m, c))
  {
    DispatchContentGrows(m, ESCAPED_LT + [c], Content);
    DispatchContentGrows(m, ESCAPED_LT, Tag);
    DispatchContentGrows(m, ESCAPED_LT + ESCAPED_GT, Content);
  }

  /** Text keeps the metadata growing, whatever state follows it. */
  lemma DispatchContentGrows(m: Machine, content: bytes, s: State)
    ensures Grows(m, DispatchContent(m, content))
    ensures Grows(m, DispatchContent(m, content).(state := s))
  {
  }

  lemma TagStepGrows(m: Machine, c: byte, known: bytes -> bool)
    requires m.state.TagSlash? || m.state.TagBang? || m.state.TagBangDash? || InTagName(m.state)
    requires Valid(m)
    ensures Grows(m, Step(m, c, known).m)
  {
    match m.state
    case TagSlash => TagSlashStepGrows(m, c, known);
    case TagBang => TagBangStepGrows(m, c, known);
    case TagBangDash => TagBangDashStepGrows(m, c, known);
    case TagName => TagNameStepGrows(m, c, known);
    case TagNameSlash => TagNameSlashStepGrows(m, c, known);
  }

  lemma TagSlashStepGrows(m: Machine, c: byte, known: bytes -> bool)
    requires m.state.TagSlash? && Valid(m)
    ensures Grows(m, Step(m, c, known).m)
  {
    assert !InScript(m.state) && !InStyle(m.state);
    assert Step(m, c, known) == Outcome(StepPrefixed(m, c, [SLASH], None, known), false);
    PrefixedGrows(m, c, [SLASH], None, known);
  }

  lemma TagBangStepGrows(m: Machine, c: byte, known: bytes -> bool)
    requires m.state.TagBang? && Valid(m)
    ensures Grows(m, Step(m, c, known).m)
  {
    assert !InScript(m.state) && !InStyle(m.state);
    assert Step(m, c, known) == Outcome(StepPrefixed(m, c, [BANG], Some(TagBangDash), known), false);
    PrefixedGrows(m, c, [BANG], Some(TagBangDash), known);
  }

  lemma TagBangDashStepGrows(m: Machine, c: byte, known: bytes -> bool)
    requires m.state.TagBangDash? && Valid(m)
    ensures Grows(m, Step(m, c, known).m)
  {
    assert !InScript(m.state) && !InStyle(m.state);
    assert Step(m, c, known) == Outcome(StepPrefixed(m, c, [BANG, DASH], Some(Comment), known), false);
    PrefixedGrows(m, c, [BANG, DASH], Some(Comment), known);
  }

  lemma TagNameStepGrows(m: Machine, c: byte, known: bytes -> bool)
    requires m.state.TagName? && Valid(m)
    ensures Grows(m, Step(m, c, known).m)
  {
    assert !InScript(m.state) && !InStyle(m.state);
    assert Step(m, c, known) == StepTagName(m, c, known);
    TagNameGrows(m, c, known);
  }

  lemma TagNameSlashStepGrows(m: Machine, c: byte, known: bytes -> bool)
    requires m.state.TagNameSlash? && Valid(m)
    ensures Grows(m, Step(m, c, known).m)
  {
    assert !InScript(m.state) && !InStyle(m.state);
    assert Step(m, c, known) == StepTagNameSlash(m, c, known);
    TagNameSlashGrows(m, c, known);
  }

  lemma AttrStepGrows(m: Machine, c: byte, known: bytes -> bool)
    requires InAttr(m.state) && Valid(m)
    ensures Grows(m, Step(m, c, known).m)
  {
    match m.state
    case AttrName => AttrNameStepGrows(m, c, known);
    case AttrNameSlash => AttrNameSlashStepGrows(m, c, known);
    case AttrValue => AttrValueStepGrows(m, c, known);
    case AttrQuote => assert Step(m, c, known).m == StepAttrQuote(m, c);
    case AttrValueSlash => AttrValueSlashStepGrows(m, c, known);
  }

  lemma AttrNameStepGrows(m: Machine, c: byte, known: bytes -> bool)
    requires m.state.AttrName? && Valid(m)
    ensures Grows(m, Step(m, c, known).m)
  {
    assert !InScript(m.state) && !InStyle(m.state);
    assert Step(m, c, known) == Outcome(StepAttrName(m, c, known), false);
    AttrNameGrows(m, c, known);
  }

  lemma AttrNameSlashStepGrows(m: Machine, c: byte, known: bytes -> bool)
    requires m.state.AttrNameSlash? && Valid(m)
    ensures Grows(m, Step(m, c, known).m)
  {
    assert !InScript(m.state) && !InStyle(m.state);
    assert Step(m, c, known) == Outcome(StepAttrNameSlash(m, c, known), false);
    AttrNameSlashGrows(m, c, known);
  }

  lemma AttrValueStepGrows(m: Machine, c: byte, known: bytes -> bool)
    requires m.state.AttrValue? && Valid(m)
    ensures Grows(m, Step(m, c, known).m)
  {
    assert !InScript(m.state) && !InStyle(m.state);
    assert Step(m, c, known) == Outcome(StepAttrValue(m, c, known), false);
    AttrValueGrows(m, c, known);
  }

  lemma AttrValueSlashStepGrows(m: Machine, c: byte, known: bytes -> bool)
    requires m.state.AttrValueSlash? && Valid(m)
    ensures Grows(m, Step(m, c, known).m)
  {
    assert !InScript(m.state) && !InStyle(m.state);
    assert Step(m, c, known) == Outcome(StepAttrValueSlash(m, c, known), false);
    AttrValueSlashGrows(m, c, known);
  }

  lemma RawStepGrows(m: Machine, c: byte, known: bytes -> bool)
    requires InScript(m.state) || InStyle(m.state)
    ensures Grows(m, Step(m, c, known).m)
  {
    ScanningStep(m, c, known);
    var lit := Literal(m.state);
    if Advance(lit, Matched(m.state), c) == |lit| {
      if InScript(m.state) {
        StartFinishGrows(m.(lastTag := SLASH_SCRIPT), SLASH_SCRIPT, known);
      } else {
        StartFinishGrows(m.(lastTag := SLASH_STYLE), SLASH_STYLE, known);
      }
    }
  }

  lemma StartFinishGrows(m: Machine, tag: bytes, known: bytes -> bool)
    requires |tag| > 0 && tag == m.lastTag
    ensures !StartTag(m, tag).raised ==> Grows(m, FinishTag(StartTag(m, tag).m, tag, known))
    ensures Grows(m, StartTag(m, tag).m)
  {
  }

  lemma PrefixedGrows(m: Machine, c: byte, prefix: bytes, onDash: Option<State>, known: bytes -> bool)
    requires 0 < |prefix| < |SLASH_TITLE|
    requires onDash.Some? ==> onDash.value == TagBangDash || onDash.value == Comment
    ensures Grows(m, StepPrefixed(m, c, prefix, onDash, known))
  {
    if IsSpace(c) || c == GREATER_THAN {
      PrefixedTagGrows(m, c, prefix, onDash, known);
    }
  }

  lemma PrefixedTagGrows(m: Machine, c: byte, prefix: bytes, onDash: Option<State>, known: bytes -> bool)
    requires 0 < |prefix| < |SLASH_TITLE|
    requires onDash.Some? ==> onDash.value == TagBangDash || onDash.value == Comment
    requires IsSpace(c) || c == GREATER_THAN
    ensures Grows(m, StepPrefixed(m, c, prefix, onDash, known))
  {
    var m0 := m.(lastTag := prefix);
    StartFinishGrows(m0, prefix, known);
    assert Grows(m, m0);
    assert !StartTag(m0, prefix).raised;
  }

  lemma TagNameGrows(m: Machine, c: byte, known: bytes -> bool)
    requires m.state.TagName? && Valid(m)
    ensures Grows(m, StepTagName(m, c, known).m)
  {
    if IsSpace(c) || c == LESS_THAN {
      StartFinishGrows(m, m.lastTag, known);
    } else if c == GREATER_THAN {
      StartFinishGrows(m, m.lastTag, known);
      assert StepTagName(m, c, known) == CloseTag(m, AfterTag(m.lastTag), known);
    }
  }

  lemma TagNameSlashGrows(m: Machine, c: byte, known: bytes -> bool)
    requires m.state.TagNameSlash? && Valid(m)
    ensures Grows(m, StepTagNameSlash(m, c, known).m)
  {
    if IsSpace(c) {
      StartFinishGrows(m.(lastTag := m.lastTag + [SLASH]), m.lastTag + [SLASH], known);
    } else if c == LESS_THAN {
      StartFinishGrows(m, m.lastTag, known);
    } else if c == GREATER_THAN {
      StartFinishGrows(m, m.lastTag, known);
      assert StepTagNameSlash(m, c, known) == CloseTag(m, Content, known);
    }
  }

  lemma AttrNameGrows(m: Machine, c: byte, known: bytes -> bool)
    requires m.state.AttrName? && Valid(m)
    ensures Grows(m, StepAttrName(m, c, known))
  {
    var r := StepAttrName(m, c, known);
    if IsSpace(c) {
      var m1 := DispatchAttr(m, m.lastTag, m.lastAttr, None);
      assert r == m1.(lastAttr := [], lastValue := None);
    } else if c == LESS_THAN {
      var m1 := DispatchAttr(m, m.lastTag, m.lastAttr, None);
      assert r == Restart(m1);
    } else if c == GREATER_THAN {
      var m1 := DispatchAttr(m, m.lastTag, m.lastAttr, None);
      assert Grows(m, m1) && Grows(m1, FinishTag(m1, m.lastTag, known));
      assert r == FinishTag(m1, m.lastTag, known).(state := AfterTag(m.lastTag));
    }
  }

  lemma AttrNameSlashGrows(m: Machine, c: byte, known: bytes -> bool)
    requires m.state.AttrNameSlash? && Valid(m)
    ensures Grows(m, StepAttrNameSlash(m, c, known))
  {
    var r := StepAttrNameSlash(m, c, known);
    if IsSpace(c) {
      var m1 := DispatchAttr(m, m.lastTag, m.lastAttr + [SLASH], None);
      assert r == m1.(lastAttr := [], lastValue := None);
    } else if c == LESS_THAN {
      var m1 := DispatchAttr(m, m.lastTag, m.lastAttr, None);
      assert r == Restart(m1);
    } else if c == GREATER_THAN {
      var m1 := DispatchAttr(m, m.lastTag, m.lastAttr, None);
      assert Grows(m, m1) && Grows(m1, FinishTag(m1, m.lastTag, known));
      assert r == FinishTag(m1, m.lastTag, known).(state := Content);
    }
  }

  lemma AttrValueGrows(m: Machine, c: byte, known: bytes -> bool)
    requires m.state.AttrValue? && Valid(m)
    ensures Grows(m, StepAttrValue(m, c, known))
  {
    var r := StepAttrValue(m, c, known);
    if IsSpace(c) {
      var m1 := DispatchAttr(m, m.lastTag, m.lastAttr, m.lastValue);
      assert r == m1.(lastAttr := [], lastValue := None, state := AttrName);
    } else if c == LESS_THAN {
      var m1 := DispatchAttr(m, m.lastTag, m.lastAttr, m.lastValue);
      assert r == Restart(m1);
    } else if c == GREATER_THAN {
      var m1 := DispatchAttr(m, m.lastTag, m.lastAttr, m.lastValue);
      assert Grows(m, m1) && Grows(m1, FinishTag(m1, m.lastTag, known));
      assert r == FinishTag(m1, m.lastTag, known).(state := AfterTag(m.lastTag));
    }
  }

  lemma AttrValueSlashGrows(m: Machine, c: byte, known: bytes -> bool)
    requires m.state.AttrValueSlash? && Valid(m)
    ensures Grows(m, StepAttrValueSlash(m, c, known))
  {
    var r := StepAttrValueSlash(m, c, known);
    if IsSpace(c) {
      var m1 := DispatchAttr(m, m.lastTag, m.lastAttr, Some(m.lastValue.value + [SLASH]));
      assert r == m1.(lastAttr := [], lastValue := None, state := AttrName);
    } else if c == LESS_THAN {
      var m1 := DispatchAttr(m, m.lastTag, m.lastAttr, m.lastValue);
      assert r == Restart(m1);
    } else if c == GREATER_THAN {
      var m1 := DispatchAttr(m, m.lastTag, m.lastAttr, m.lastValue);
      assert Grows(m, m1) && Grows(m1, FinishTag(m1, m.lastTag, known));
      assert r == FinishTag(m1, m.lastTag, known).(state := AfterTag(m.lastTag));
    }
  }

  lemma GrowsTrans(m: Machine, x: Machine, n: Machine)
    requires Grows(m, x) && Grows(x, n)
    ensures Grows(m, n)
  {
  }

  /**
   * Over any input the metadata only grows, and so `_is_enough` once true
   * stays true.
   */
  lemma {:induction false} RunGrows(m: Machine, data: bytes, known: bytes -> bool)
    requires Valid(m)
    ensures Grows(m, Run(m, data, known).m)
    ensures IsEnough(m) ==> IsEnough(Run(m, data, known).m)
    decreases |data|
  {
    if data != [] {
      var o1 := Step(m, data[0], known);
      StepGrows(m, data[0], known);
      if !o1.raised {
        RunGrows(o1.m, data[1..], known);
        GrowsTrans(m, o1.m, Run(o1.m, data[1..], known).m);
      }
    }
  }

  /**
   * `_is_enough` counts an Open Graph title that is present but empty, while
   * the reported title falls back past it: the squeezer can declare itself
   * done, before the head ends, with no title to report.
   */
  lemma EnoughWithoutTitle()
    ensures exists m :: IsEnough(m) && !m.headDone && Report(m).title.None?
  {
    var m := Init([]).(charset := Some([]), ogTitle := Some([]), description := Some([]));
    assert IsEnough(m) && !m.headDone && Report(m).title.None?;
  }

  /**
   * In a `<meta>` with a `charset` attribute that attribute alone decides
   * the charset, whatever `http-equiv` says; once a charset is known no
   * later `<meta>` changes it.
   */
  lemma MetaCharsetPriority(m: Machine, tag: bytes, known: bytes -> bool)
    requires |tag| > 0 && tag == m.lastTag && m.lastAttrs.Some? && Lower(tag) == META
    requires m.charset.None? && CHARSET in m.lastAttrs.value
    ensures
      var r := FinishTag(m, tag, known);
      var s := SetCharset(m, m.lastAttrs.value[CHARSET], known);
      r.charset == s.charset && r.effCharset == s.effCharset
  {
    var a := m.lastAttrs.value;
    var m1 := CharsetFromMeta(m, a, known);
    assert m1 == SetCharset(m, a[CHARSET], known);
  }

  /**
   * In a `<meta>` without a `charset` attribute, while no charset is known,
   * a `Content-Type` `http-equiv` applies every piece of its content: the
   * charset is the last name declared and the effective charset the last
   * one that names a codec, each unchanged when there is none.
   */
  lemma MetaHttpEquivCharset(m: Machine, tag: bytes, known: bytes -> bool)
    requires |tag| > 0 && tag == m.lastTag && m.lastAttrs.Some? && Lower(tag) == META
    requires m.charset.None? && CHARSET !in m.lastAttrs.value
    requires AttrIs(m.lastAttrs.value, HTTP_EQUIV, CONTENT_TYPE)
    requires CONTENT in m.lastAttrs.value && m.lastAttrs.value[CONTENT].Some?
    ensures
      var r := FinishTag(m, tag, known);
      var decls := CharsetDecls(Split(m.lastAttrs.value[CONTENT].value, SEMICOLON));
      var good := KnownOnly(decls, known);
      && r.charset == (if decls == [] then None else Some(decls[|decls| - 1]))
      && r.effCharset == (if good == [] then m.effCharset else good[|good| - 1])
  {
    var a := m.lastAttrs.value;
    var content := a[CONTENT].value;
    var pieces := Split(content, SEMICOLON);
    var c := CharsetFromMeta(m, a, known);
    var r := FinishTag(m, tag, known);
    assert r.charset == c.charset && r.effCharset == c.effCharset by {
      assert ExtractMeta(m, a, known).charset == c.charset;
    }
    if content == [] {
      EmptyContentDeclaresNothing();
      assert c == m;
    } else {
      assert c == ApplyContentType(m, pieces, known);
      ContentTypeLastWins(m, pieces, known);
    }
  }

  /**
   * A `<meta>` fills each of the description and the two Open Graph fields
   * that is still `None` from its `content` attribute when its `name` or
   * `property` lower-cases to that field's key, and leaves it alone otherwise.
   */
  lemma MetaFillsFields(m: Machine, tag: bytes, known: bytes -> bool)
    requires |tag| > 0 && tag == m.lastTag && m.lastAttrs.Some? && Lower(tag) == META
    ensures
      var a := m.lastAttrs.value;
      var r := FinishTag(m, tag, known);
      && r.description == (if m.description.None? && AttrIs(a, NAME, DESCRIPTION) && CONTENT in a
                           then a[CONTENT] else m.description)
      && r.ogTitle == (if m.ogTitle.None? && AttrIs(a, PROPERTY, OG_TITLE) && CONTENT in a
                       then a[CONTENT] else m.ogTitle)
      && r.ogDescription == (if m.ogDescription.None? && AttrIs(a, PROPERTY, OG_DESCRIPTION) && CONTENT in a
                             then a[CONTENT] else m.ogDescription)
  {
  }

  // ---------------------------------------------------------------------
  // `http-equiv` charset pieces

  /** One piece sets the charset to the name it declares, and the effective charset when that names a codec. */
  lemma PieceSetsDecl(m: Machine, item: bytes, known: bytes -> bool)
    ensures var r := ApplyPiece(m, item, known); var d := PieceDecl(item);
      && r.charset == (if d == [] then m.charset else Some(d[0]))
      && r.effCharset == (if d != [] && known(d[0]) then d[0] else m.effCharset)
  {
    match SplitOnce(item, EQUALS)
    case None =>
    case Some((key, value)) =>
      StripIdempotent(value);
  }

  /**
   * Every `charset=` piece of one `http-equiv` content is applied in order:
   * `charset` ends as the last declared name and `eff_charset` as the last
   * declared name that names a codec, each unchanged when there is none.
   */
  lemma {:induction false} ContentTypeLastWins(m: Machine, pieces: seq<bytes>, known: bytes -> bool)
    ensures
      var r := ApplyContentType(m, pieces, known);
      var decls := CharsetDecls(pieces);
      var good := KnownOnly(decls, known);
      && r.charset == (if decls == [] then m.charset else Some(decls[|decls| - 1]))
      && r.effCharset == (if good == [] then m.effCharset else good[|good| - 1])
    decreases |pieces|
  {
    if pieces != [] {
      var m1 := ApplyPiece(m, pieces[0], known);
      var here := PieceDecl(pieces[0]);
      var rest := CharsetDecls(pieces[1..]);
      assert ApplyContentType(m, pieces, known) == ApplyContentType(m1, pieces[1..], known);
      assert CharsetDecls(pieces) == here + rest;
      PieceSetsDecl(m, pieces[0], known);
      ContentTypeLastWins(m1, pieces[1..], known);
      KnownAppend(here, rest, known);
      var good1 := KnownOnly(here, known);
      var good2 := KnownOnly(rest, known);
      assert good1 == [] <==> here == [] || !known(here[0]) by {
        if here != [] {
          assert here[1..] == [];
        }
      }
      assert good1 != [] ==> good1 == [here[0]] by {
        if here != [] {
          assert here[1..] == [];
        }
      }
      LastOfAppend(here, rest);
      LastOfAppend(good1, good2);
    }
  }
}
