/**
 * What the squeeze.py state machine promises, proved about SqueezeMachine:
 * chunk-boundary invariance, verbatim text, title re-entry, overwriting
 * `<meta>` declarations, a title that only grows, and an `enough` flag
 * that is the head flag alone.
 */
module SqueezeLemmas {
  import opened Wrappers
  import opened Bytes
  import opened Names
  import opened Tokenizer
  import opened HttpEquiv
  import opened SqueezeMachine

  // ---------------------------------------------------------------------
  // Chunks

  /** Feeding `a` and then `b` is feeding `a + b`. */
  lemma {:induction false} RunConcat(m: Machine, a: bytes, b: bytes, known: bytes -> bool)
    requires Valid(m)
    ensures Run(m, a + b, known) == Run(Run(m, a, known), b, known)
    decreases |a|
  {
    if a == [] {
      assert a + b == b;
    } else {
      var m1 := Step(m, a[0], known);
      assert (a + b)[0] == a[0];
      assert (a + b)[1..] == a[1..] + b;
      assert Run(m, a + b, known) == Run(m1, a[1..] + b, known);
      assert Run(m, a, known) == Run(m1, a[1..], known);
      RunConcat(m1, a[1..], b, known);
    }
  }

  /** Feeding one byte is one step. */
  lemma RunOne(m: Machine, c: byte, known: bytes -> bool)
    requires Valid(m)
    ensures Run(m, [c], known) == Step(m, c, known)
  {
    assert [c][1..] == [];
  }

  /** Running `[c] + rest` is one step and then the rest. */
  lemma RunCons(m: Machine, c: byte, rest: bytes, known: bytes -> bool)
    requires Valid(m)
    ensures Run(m, [c] + rest, known) == Run(Step(m, c, known), rest, known)
  {
    assert ([c] + rest)[0] == c && ([c] + rest)[1..] == rest;
  }

  // ---------------------------------------------------------------------
  // Text

  /** Two pieces of text dispatched one after the other are one piece. */
  lemma DispatchContentAppend(m: Machine, a: bytes, b: bytes)
    ensures DispatchContent(DispatchContent(m, a), b) == DispatchContent(m, a + b)
  {
    if m.insideTitle && m.title.Some? {
      assert m.title.value + a + b == m.title.value + (a + b);
    }
  }

  /**
   * Text without `<` is passed on byte for byte, whitespace included: inside
   * `<title>` the title gains exactly that text, and outside nothing changes.
   */
  lemma {:induction false} ContentVerbatim(m: Machine, s: bytes, known: bytes -> bool)
    requires m.state.Content?
    requires s != [] && LESS_THAN !in s
    ensures Run(m, s, known) == DispatchContent(m, s)
    ensures m.insideTitle ==> Run(m, s, known).title == Some(if m.title.None? then s else m.title.value + s)
    ensures !m.insideTitle ==> Run(m, s, known) == m
    decreases |s|
  {
    var m1 := DispatchContent(m, [s[0]]);
    assert Step(m, s[0], known) == m1;
    assert Run(m, s, known) == Run(m1, s[1..], known);
    if |s| == 1 {
      assert [s[0]] == s;
    } else {
      assert LESS_THAN !in s[1..];
      ContentVerbatim(m1, s[1..], known);
      DispatchContentAppend(m, [s[0]], s[1..]);
      assert [s[0]] + s[1..] == s;
    }
  }

  // ---------------------------------------------------------------------
  // Titles

  /** In `tagname` every byte that is not a delimiter is appended to the tag name and nothing else happens. */
  lemma {:induction false} TagNameRun(m: Machine, name: bytes, known: bytes -> bool)
    requires m.state.TagName? && Valid(m)
    requires forall i :: 0 <= i < |name| ==> !Delimits(name[i])
    ensures Run(m, name, known) == m.(lastTag := m.lastTag + name)
    decreases |name|
  {
    if name == [] {
      assert m.lastTag + name == m.lastTag;
    } else {
      var m1 := m.(lastTag := m.lastTag + [name[0]]);
      assert StepTagName(m, name[0], known) == m1;
      assert Step(m, name[0], known) == m1;
      RunCons(m, name[0], name[1..], known);
      assert [name[0]] + name[1..] == name;
      TagNameRun(m1, name[1..], known);
      assert m1.lastTag + name[1..] == m.lastTag + name;
    }
  }

  /** In `attrname` every byte that does not end the name is appended to it and nothing else happens. */
  lemma {:induction false} AttrNameRun(m: Machine, name: bytes, known: bytes -> bool)
    requires m.state.AttrName? && Valid(m)
    requires forall i :: 0 <= i < |name| ==> !EndsAttrName(name[i])
    ensures Run(m, name, known) == m.(lastAttr := m.lastAttr + name)
    decreases |name|
  {
    if name == [] {
      assert m.lastAttr + name == m.lastAttr;
    } else {
      var m1 := m.(lastAttr := m.lastAttr + [name[0]]);
      assert !InScript(m.state) && !InStyle(m.state);
      assert Step(m, name[0], known) == StepAttrName(m, name[0], known);
      assert Run(m, name, known) == Run(m1, name[1..], known);
      AttrNameRun(m1, name[1..], known);
      assert m1.lastAttr + name[1..] == m.lastAttr + name;
    }
  }

  /** In `attrvalue` every byte that is no delimiter and no `"` is appended to the value and nothing else happens. */
  lemma {:induction false} AttrValueRun(m: Machine, value: bytes, known: bytes -> bool)
    requires m.state.AttrValue? && Valid(m)
    requires forall i :: 0 <= i < |value| ==> !Delimits(value[i]) && value[i] != QUOTE
    ensures Run(m, value, known) == m.(lastValue := Some(m.lastValue.value + value))
    decreases |value|
  {
    if value == [] {
      assert m.lastValue.value + value == m.lastValue.value;
    } else {
      var m1 := m.(lastValue := Some(m.lastValue.value + [value[0]]));
      assert !InScript(m.state) && !InStyle(m.state);
      assert Step(m, value[0], known) == StepAttrValue(m, value[0], known);
      assert Run(m, value, known) == Run(m1, value[1..], known);
      AttrValueRun(m1, value[1..], known);
      assert m1.lastValue.value + value[1..] == m.lastValue.value + value;
    }
  }

  /**
   * `name=value` followed by whitespace records the value under the
   * lower-cased name and waits for the next attribute; followed by `>` it
   * records it and then finishes the tag with that attribute map, the name
   * and value still pending as the source leaves them.
   */
  lemma AttributeRecorded(m: Machine, name: bytes, value: bytes, c: byte, known: bytes -> bool)
    requires m.state.AttrName? && Valid(m) && m.lastAttr == []
    requires name != [] && forall i :: 0 <= i < |name| ==> !EndsAttrName(name[i])
    requires forall i :: 0 <= i < |value| ==> !Delimits(value[i]) && value[i] != QUOTE
    requires IsSpace(c) || c == GREATER_THAN
    ensures
      var r := Run(m, name + [EQUALS] + value + [c], known);
      var attrs := Some(m.lastAttrs.value[Lower(name) := Some(value)]);
      && (IsSpace(c) ==> r == m.(lastAttrs := attrs, lastValue := None))
      && (c == GREATER_THAN ==>
            var pending := m.(lastAttrs := attrs, lastAttr := name, lastValue := Some(value), state := AttrValue);
            r == FinishTag(pending, m.lastTag, known).(state := AfterTag(m.lastTag)))
  {
    var m1 := m.(lastAttr := name);
    var m2 := m1.(lastValue := Some([]), state := AttrValue);
    var m3 := m2.(lastValue := Some(value));
    var r := StepAttrValue(m3, c, known);
    AttrNameRun(m, name, known);
    RunOne(m1, EQUALS, known);
    EqualsStartsValue(m1, known);
    RunThen(m, name, [EQUALS], m1, m2, known);
    AttrValueRun(m2, value, known);
    assert [] + value == value;
    RunThen(m, name + [EQUALS], value, m2, m3, known);
    RunOne(m3, c, known);
    AttrValueStep(m3, c, known);
    if c == GREATER_THAN {
      StepAttrValueCloses(m3, known);
    }
    RunThen(m, name + [EQUALS] + value, [c], m3, r, known);
    assert WithAttr(m3, name, Some(value)) == Some(m.lastAttrs.value[Lower(name) := Some(value)]);
  }

  /** Running `a` to `x` and then `b` from `x` to `y` runs `a + b` to `y`. */
  lemma RunThen(m: Machine, a: bytes, b: bytes, x: Machine, y: Machine, known: bytes -> bool)
    requires Valid(m) && Valid(x)
    requires Run(m, a, known) == x && Run(x, b, known) == y
    ensures Run(m, a + b, known) == y
  {
    RunConcat(m, a, b, known);
  }

  /** In `attrname`, `=` starts an empty value. */
  lemma EqualsStartsValue(m: Machine, known: bytes -> bool)
    requires m.state.AttrName? && Valid(m)
    ensures Step(m, EQUALS, known) == m.(lastValue := Some([]), state := AttrValue)
  {
    assert !InScript(m.state) && !InStyle(m.state);
    assert Step(m, EQUALS, known) == StepAttrName(m, EQUALS, known);
  }

  /** In `attrvalue` a byte is handled by the attribute-value step. */
  lemma AttrValueStep(m: Machine, c: byte, known: bytes -> bool)
    requires m.state.AttrValue? && Valid(m)
    ensures Step(m, c, known) == StepAttrValue(m, c, known)
  {
    assert !InScript(m.state) && !InStyle(m.state);
  }

  /** `<` in content opens a tag. */
  lemma ContentOpensTag(m: Machine, known: bytes -> bool)
    requires m.state.Content? && Valid(m)
    ensures Step(m, LESS_THAN, known) == BeginTag(m)
  {
    assert Step(m, LESS_THAN, known) == StepContent(m, LESS_THAN);
  }

  /** After `<`, a byte that is no delimiter and no `!` starts the tag name. */
  lemma TagStartsName(m: Machine, c: byte, known: bytes -> bool)
    requires m.state.Tag? && Valid(m) && !Delimits(c) && c != BANG
    ensures Step(m, c, known) == m.(lastTag := [c], state := TagName)
  {
    assert Step(m, c, known) == StepTag(m, c);
  }

  /** After `<`, a `/` leads to `tagslash`. */
  lemma TagOpensSlash(m: Machine, known: bytes -> bool)
    requires m.state.Tag? && Valid(m)
    ensures Step(m, SLASH, known) == m.(state := TagSlash)
  {
    assert Step(m, SLASH, known) == StepTag(m, SLASH);
  }

  /** After `</`, any byte but whitespace, `<` and `>` starts a tag name beginning with `/`. */
  lemma SlashStartsName(m: Machine, c: byte, known: bytes -> bool)
    requires m.state.TagSlash? && Valid(m) && !IsSpace(c) && c != LESS_THAN && c != GREATER_THAN
    ensures Step(m, c, known) == m.(lastTag := [SLASH, c], state := TagName)
  {
    assert Step(m, c, known) == StepPrefixed(m, c, [SLASH], None, known);
    assert [SLASH] + [c] == [SLASH, c];
  }

  /**
   * A stray `<` in the title: followed by whitespace or `>` it is kept as
   * the escaped text `&lt;` and that byte (`&gt;` for `>`).
   */
  lemma StrayLessThanEscaped(m: Machine, c: byte, known: bytes -> bool)
    requires m.state.Content? && Valid(m) && m.insideTitle
    requires IsSpace(c) || c == GREATER_THAN
    ensures Run(m, [LESS_THAN, c], known).state == Content
    ensures Run(m, [LESS_THAN, c], known).title ==
      Some(OrEmpty(m.title) + ESCAPED_LT + (if c == GREATER_THAN then ESCAPED_GT else [c]))
  {
    var m1 := BeginTag(m);
    assert Step(m, LESS_THAN, known) == m1 by { ContentOpensTag(m, known); }
    var e := ESCAPED_LT + (if c == GREATER_THAN then ESCAPED_GT else [c]);
    var m2 := DispatchContent(m1, e).(state := Content);
    assert Step(m1, c, known) == m2 by { TagStep(m1, c, known); }
    assert Run(m, [LESS_THAN, c], known) == m2 by {
      RunCons(m, LESS_THAN, [c], known);
      RunOne(m1, c, known);
      assert [LESS_THAN] + [c] == [LESS_THAN, c];
    }
    assert OrEmpty(m.title) + e == OrEmpty(m.title) + ESCAPED_LT + (if c == GREATER_THAN then ESCAPED_GT else [c]);
  }

  /**
   * `<` after `</`, `<!` or `<!-` in the title: the prefix is kept as
   * escaped text and a new tag begins.
   */
  lemma PrefixLessThanEscaped(m: Machine, p: bytes, known: bytes -> bool)
    requires p == [SLASH] || p == [BANG] || p == [BANG, DASH]
    requires m.state == (if p == [SLASH] then TagSlash else if p == [BANG] then TagBang else TagBangDash)
    requires Valid(m) && m.insideTitle
    ensures Step(m, LESS_THAN, known) == m.(title := Some(OrEmpty(m.title) + ESCAPED_LT + p), state := Tag)
  {
    PrefixedStep(m, LESS_THAN, p, known);
    assert OrEmpty(m.title) + (ESCAPED_LT + p) == OrEmpty(m.title) + ESCAPED_LT + p;
  }

  /** One byte in `tag` is the tag step. */
  lemma TagStep(m: Machine, c: byte, known: bytes -> bool)
    requires m.state.Tag? && Valid(m)
    ensures Step(m, c, known) == StepTag(m, c)
  {
    assert !InScript(m.state) && !InStyle(m.state);
  }

  /** One byte in `tagslash`, `tagbang` or `tagbangdash` is the prefixed step. */
  lemma PrefixedStep(m: Machine, c: byte, p: bytes, known: bytes -> bool)
    requires Valid(m)
    requires m.state == (if p == [SLASH] then TagSlash else if p == [BANG] then TagBang else TagBangDash)
    requires p == [SLASH] || p == [BANG] || p == [BANG, DASH]
    ensures Step(m, c, known) ==
      StepPrefixed(m, c, p, if p == [SLASH] then None else if p == [BANG] then Some(TagBangDash) else Some(Comment), known)
  {
    assert !InScript(m.state) && !InStyle(m.state);
  }

  /** In `tagname` a byte is handled by the tag-name step. */
  lemma TagNameStep(m: Machine, c: byte, known: bytes -> bool)
    requires m.state.TagName? && Valid(m)
    ensures Step(m, c, known) == StepTagName(m, c, known)
  {
  }

  /** `>` after the tag name `title` enters the title, whether or not one was captured before. */
  lemma TitleTagCloses(m: Machine, known: bytes -> bool)
    requires m.state.TagName? && m.lastTag == TITLE
    ensures StepTagName(m, GREATER_THAN, known) == m.(lastAttrs := None, insideTitle := true, state := Content)
  {
    TitleNamesLowerCase();
    var m1 := m.(lastAttrs := Some(map[]), insideTitle := true);
    assert StartTag(m, TITLE) == m1;
    assert FinishTag(m1, TITLE, known) == m1.(lastAttrs := None);
    assert AfterTag(TITLE) == Content;
  }

  /** `>` after the tag name `/title` leaves the title. */
  lemma SlashTitleTagCloses(m: Machine, known: bytes -> bool)
    requires m.state.TagName? && m.lastTag == SLASH_TITLE
    ensures StepTagName(m, GREATER_THAN, known) == m.(lastAttrs := None, insideTitle := false, state := Content)
  {
    TitleNamesLowerCase();
    var m1 := m.(lastAttrs := Some(map[]), insideTitle := false);
    assert StartTag(m, SLASH_TITLE) == m1;
    assert FinishTag(m1, SLASH_TITLE, known) == m1.(lastAttrs := None);
    assert AfterTag(SLASH_TITLE) == Content;
  }

  /**
   * `<title>` in content enters the title whatever was captured before: the
   * text after a second `<title>` is appended to the first title.
   */
  lemma OpenTitle(m: Machine, known: bytes -> bool)
    requires m.state.Content?
    ensures Run(m, [LESS_THAN] + TITLE + [GREATER_THAN], known)
         == m.(lastTag := TITLE, lastAttr := [], lastValue := None, lastAttrs := None, insideTitle := true)
  {
    var a1 := BeginTag(m);
    ContentOpensTag(m, known);
    var a2 := a1.(lastTag := [TITLE[0]], state := TagName);
    TagStartsName(a1, TITLE[0], known);
    TagNameRun(a2, TITLE[1..], known);
    var a3 := a2.(lastTag := TITLE);
    assert a2.lastTag + TITLE[1..] == TITLE;
    TitleTagCloses(a3, known);
    TagNameStep(a3, GREATER_THAN, known);
    var a4 := m.(lastTag := TITLE, lastAttr := [], lastValue := None, lastAttrs := None, insideTitle := true);
    assert a3.(lastAttrs := None, insideTitle := true, state := Content) == a4;
    OpenTitleRun(m, a1, a2, a3, a4, known);
  }

  lemma OpenTitleRun(m: Machine, a1: Machine, a2: Machine, a3: Machine, a4: Machine, known: bytes -> bool)
    requires Valid(m) && Valid(a1) && Valid(a2) && Valid(a3)
    requires Step(m, LESS_THAN, known) == a1
    requires Step(a1, TITLE[0], known) == a2
    requires Run(a2, TITLE[1..], known) == a3
    requires Step(a3, GREATER_THAN, known) == a4
    ensures Run(m, [LESS_THAN] + TITLE + [GREATER_THAN], known) == a4
  {
    assert [LESS_THAN] + TITLE + [GREATER_THAN] == [LESS_THAN] + ([TITLE[0]] + (TITLE[1..] + [GREATER_THAN]));
    RunCons(m, LESS_THAN, [TITLE[0]] + (TITLE[1..] + [GREATER_THAN]), known);
    RunCons(a1, TITLE[0], TITLE[1..] + [GREATER_THAN], known);
    RunConcat(a2, TITLE[1..], [GREATER_THAN], known);
    RunCons(a3, GREATER_THAN, [], known);
    assert [GREATER_THAN] + [] == [GREATER_THAN];
  }

  /** `</title>` in content leaves the title, whether or not a title was captured. */
  lemma CloseTitle(m: Machine, known: bytes -> bool)
    requires m.state.Content?
    ensures Run(m, [LESS_THAN] + SLASH_TITLE + [GREATER_THAN], known)
         == m.(lastTag := SLASH_TITLE, lastAttr := [], lastValue := None, lastAttrs := None, insideTitle := false)
  {
    var b1 := BeginTag(m);
    ContentOpensTag(m, known);
    var b2 := b1.(state := TagSlash);
    TagOpensSlash(b1, known);
    var b3 := b2.(lastTag := [SLASH, SLASH_TITLE[1]], state := TagName);
    SlashStartsName(b2, SLASH_TITLE[1], known);
    TagNameRun(b3, SLASH_TITLE[2..], known);
    var b4 := b3.(lastTag := SLASH_TITLE);
    assert b3.lastTag + SLASH_TITLE[2..] == SLASH_TITLE;
    SlashTitleTagCloses(b4, known);
    TagNameStep(b4, GREATER_THAN, known);
    var b5 := m.(lastTag := SLASH_TITLE, lastAttr := [], lastValue := None, lastAttrs := None, insideTitle := false);
    assert b4.(lastAttrs := None, insideTitle := false, state := Content) == b5;
    CloseTitleRun(m, b1, b2, b3, b4, b5, known);
  }

  lemma CloseTitleRun(m: Machine, b1: Machine, b2: Machine, b3: Machine, b4: Machine, b5: Machine, known: bytes -> bool)
    requires Valid(m) && Valid(b1) && Valid(b2) && Valid(b3) && Valid(b4)
    requires Step(m, LESS_THAN, known) == b1
    requires Step(b1, SLASH, known) == b2
    requires Step(b2, SLASH_TITLE[1], known) == b3
    requires Run(b3, SLASH_TITLE[2..], known) == b4
    requires Step(b4, GREATER_THAN, known) == b5
    ensures Run(m, [LESS_THAN] + SLASH_TITLE + [GREATER_THAN], known) == b5
  {
    var rest := SLASH_TITLE[2..] + [GREATER_THAN];
    assert [LESS_THAN] + SLASH_TITLE + [GREATER_THAN] == [LESS_THAN] + ([SLASH] + ([SLASH_TITLE[1]] + rest));
    RunCons(m, LESS_THAN, [SLASH] + ([SLASH_TITLE[1]] + rest), known);
    RunCons(b1, SLASH, [SLASH_TITLE[1]] + rest, known);
    RunCons(b2, SLASH_TITLE[1], rest, known);
    RunConcat(b3, SLASH_TITLE[2..], [GREATER_THAN], known);
    RunCons(b4, GREATER_THAN, [], known);
    assert [GREATER_THAN] + [] == [GREATER_THAN];
  }

  /** `<title></title>` is harmless here: the title is left as it was and capture is off again. */
  lemma EmptyTitleCloses(m: Machine, known: bytes -> bool)
    requires m.state.Content?
    ensures
      var r := Run(m, [LESS_THAN] + TITLE + [GREATER_THAN] + [LESS_THAN] + SLASH_TITLE + [GREATER_THAN], known);
      r == m.(lastTag := SLASH_TITLE, lastAttr := [], lastValue := None, lastAttrs := None, insideTitle := false)
  {
    var open := [LESS_THAN] + TITLE + [GREATER_THAN];
    var close := [LESS_THAN] + SLASH_TITLE + [GREATER_THAN];
    OpenTitle(m, known);
    var a := m.(lastTag := TITLE, lastAttr := [], lastValue := None, lastAttrs := None, insideTitle := true);
    CloseTitle(a, known);
    RunConcat(m, open, close, known);
    assert open + close == [LESS_THAN] + TITLE + [GREATER_THAN] + [LESS_THAN] + SLASH_TITLE + [GREATER_THAN];
  }

  /** A second `<title>` appends its text to the title already captured. */
  lemma SecondTitleAppends(m: Machine, s: bytes, known: bytes -> bool)
    requires m.state.Content? && m.title.Some?
    requires s != [] && LESS_THAN !in s
    ensures Run(m, [LESS_THAN] + TITLE + [GREATER_THAN] + s, known).title == Some(m.title.value + s)
  {
    var open := [LESS_THAN] + TITLE + [GREATER_THAN];
    OpenTitle(m, known);
    var a := m.(lastTag := TITLE, lastAttr := [], lastValue := None, lastAttrs := None, insideTitle := true);
    ContentVerbatim(a, s, known);
    RunConcat(m, open, s, known);
  }

  // ---------------------------------------------------------------------
  // `<` inside a tag

  /**
   * A `<` inside a tag name or an attribute dispatches what is pending (the
   * start tag, or the attribute with its value), finishes nothing, and
   * begins a new tag with the tag name discarded.
   */
  lemma LessThanRestarts(m: Machine, known: bytes -> bool)
    requires Valid(m)
    requires InTagName(m.state) || m.state.AttrName? || m.state.AttrNameSlash? || m.state.AttrValue? || m.state.AttrValueSlash?
    ensures var r := Step(m, LESS_THAN, known);
      && r.state.Tag? && r.lastTag == []
      && r.title == m.title && r.description == m.description
      && r.charset == m.charset && r.effCharset == m.effCharset
    ensures InTagName(m.state) ==> Step(m, LESS_THAN, known) == StartTag(m, m.lastTag).(lastTag := [], state := Tag)
    ensures !InTagName(m.state) ==>
      Step(m, LESS_THAN, known) == Restart(DispatchAttr(m, m.lastTag, m.lastAttr, if InValue(m.state) then m.lastValue else None))
  {
    assert !InScript(m.state) && !InStyle(m.state);
    if m.state.TagName? {
      assert Step(m, LESS_THAN, known) == StepTagName(m, LESS_THAN, known);
    } else if m.state.TagNameSlash? {
      assert Step(m, LESS_THAN, known) == StepTagNameSlash(m, LESS_THAN, known);
    } else if m.state.AttrName? {
      assert Step(m, LESS_THAN, known) == StepAttrName(m, LESS_THAN, known);
    } else if m.state.AttrNameSlash? {
      assert Step(m, LESS_THAN, known) == StepAttrNameSlash(m, LESS_THAN, known);
    } else if m.state.AttrValue? {
      assert Step(m, LESS_THAN, known) == StepAttrValue(m, LESS_THAN, known);
    } else {
      assert Step(m, LESS_THAN, known) == StepAttrValueSlash(m, LESS_THAN, known);
    }
  }

  // ---------------------------------------------------------------------
  // `<meta>` overwrites

  /** A `charset` attribute sets the charset whatever an earlier `<meta>` declared. */
  lemma MetaCharsetOverwrites(m: Machine, tag: bytes, known: bytes -> bool)
    requires |tag| > 0 && tag == m.lastTag && m.lastAttrs.Some? && Lower(tag) == META
    requires CHARSET in m.lastAttrs.value && HTTP_EQUIV !in m.lastAttrs.value
    requires m.lastAttrs.value[CHARSET].Some? && m.lastAttrs.value[CHARSET].value != []
    ensures
      var v := Strip(m.lastAttrs.value[CHARSET].value);
      var r := FinishTag(m, tag, known);
      && r.charset == Some(v)
      && r.effCharset == (if known(v) then v else m.effCharset)
  {
    var a := m.lastAttrs.value;
    assert CharsetFromMeta(m, a, known) == SetCharset(m, a[CHARSET], known);
  }

  /** One piece sets the charset to the name it declares, and the effective charset when that names a codec. */
  lemma PieceSetsDecl(m: Machine, item: bytes, known: bytes -> bool)
    ensures var r := ApplyPiece(m, item, known); var d := PieceDecl(item);
      && r.charset == (if d == [] then m.charset else Some(d[0]))
      && r.effCharset == (if d != [] && known(d[0]) then d[0] else m.effCharset)
  {
    match SplitOnce(item, EQUALS)
    case None =>
    case Some((key, value)) =>
      StripIdempotent(value);
  }

  /**
   * The pieces of one `http-equiv` content are applied in order: `charset`
   * ends as the last declared name and `eff_charset` as the last declared
   * name that names a codec, each unchanged when there is none.
   */
  lemma {:induction false} ContentTypeLastWins(m: Machine, pieces: seq<bytes>, known: bytes -> bool)
    ensures
      var r := ApplyContentType(m, pieces, known);
      var decls := CharsetDecls(pieces);
      var good := KnownOnly(decls, known);
      && r.charset == (if decls == [] then m.charset else Some(decls[|decls| - 1]))
      && r.effCharset == (if good == [] then m.effCharset else good[|good| - 1])
    decreases |pieces|
  {
    if pieces != [] {
      var m1 := ApplyPiece(m, pieces[0], known);
      var here := PieceDecl(pieces[0]);
      var rest := CharsetDecls(pieces[1..]);
      assert ApplyContentType(m, pieces, known) == ApplyContentType(m1, pieces[1..], known);
      assert CharsetDecls(pieces) == here + rest;
      PieceSetsDecl(m, pieces[0], known);
      ContentTypeLastWins(m1, pieces[1..], known);
      KnownAppend(here, rest, known);
      var good1 := KnownOnly(here, known);
      var good2 := KnownOnly(rest, known);
      assert good1 == [] <==> here == [] || !known(here[0]) by {
        if here != [] {
          assert here[1..] == [];
        }
      }
      assert good1 != [] ==> good1 == [here[0]] by {
        if here != [] {
          assert here[1..] == [];
        }
      }
      LastOfAppend(here, rest);
      LastOfAppend(good1, good2);
    }
  }

  /**
   * In a `<meta>` with both a `charset` attribute and a `Content-Type`
   * `http-equiv` declaring a charset, the `http-equiv` is applied second
   * and decides the charset.
   */
  lemma HttpEquivAppliedLast(m: Machine, tag: bytes, known: bytes -> bool)
    requires |tag| > 0 && tag == m.lastTag && m.lastAttrs.Some? && Lower(tag) == META
    requires CHARSET in m.lastAttrs.value
    requires AttrIs(m.lastAttrs.value, HTTP_EQUIV, CONTENT_TYPE)
    requires CONTENT in m.lastAttrs.value && m.lastAttrs.value[CONTENT].Some?
    requires CharsetDecls(Split(m.lastAttrs.value[CONTENT].value, SEMICOLON)) != []
    ensures
      var decls := CharsetDecls(Split(m.lastAttrs.value[CONTENT].value, SEMICOLON));
      FinishTag(m, tag, known).charset == Some(decls[|decls| - 1])
  {
    var a := m.lastAttrs.value;
    var c := CharsetFromMeta(m, a, known);
    assert FinishTag(m, tag, known).charset == c.charset by {
      MetaCharsetIs(m, tag, known);
    }
    assert c.charset == Some(CharsetDecls(Split(a[CONTENT].value, SEMICOLON))[|CharsetDecls(Split(a[CONTENT].value, SEMICOLON))| - 1]) by {
      HttpEquivDecides(m, a, known);
    }
  }

  /** The charset after a `<meta>` is the one its attributes decide. */
  lemma MetaCharsetIs(m: Machine, tag: bytes, known: bytes -> bool)
    requires |tag| > 0 && tag == m.lastTag && m.lastAttrs.Some? && Lower(tag) == META
    ensures FinishTag(m, tag, known).charset == CharsetFromMeta(m, m.lastAttrs.value, known).charset
  {
    assert ExtractMeta(m, m.lastAttrs.value, known).charset == CharsetFromMeta(m, m.lastAttrs.value, known).charset;
  }

  /** With a `charset` attribute and a `Content-Type` declaring charsets, the last declaration wins. */
  lemma HttpEquivDecides(m: Machine, a: Attrs, known: bytes -> bool)
    requires CHARSET in a && AttrIs(a, HTTP_EQUIV, CONTENT_TYPE)
    requires CONTENT in a && a[CONTENT].Some?
    requires CharsetDecls(Split(a[CONTENT].value, SEMICOLON)) != []
    ensures
      var decls := CharsetDecls(Split(a[CONTENT].value, SEMICOLON));
      CharsetFromMeta(m, a, known).charset == Some(decls[|decls| - 1])
  {
    var content := a[CONTENT].value;
    var pieces := Split(content, SEMICOLON);
    var m1 := SetCharset(m, a[CHARSET], known);
    var decls := CharsetDecls(pieces);
    assert content != [] by {
      EmptyContentDeclaresNothing();
    }
    var r := ApplyContentType(m1, pieces, known);
    assert r.charset == Some(decls[|decls| - 1]) by {
      ContentTypeLastWins(m1, pieces, known);
    }
    assert CharsetFromMeta(m, a, known) == r by {
      ContentTypeApplies(m1, a, known);
    }
  }

  /** A `Content-Type` `http-equiv` with a non-empty content applies its pieces in order. */
  lemma ContentTypeApplies(m: Machine, a: Attrs, known: bytes -> bool)
    requires AttrIs(a, HTTP_EQUIV, CONTENT_TYPE)
    requires CONTENT in a && a[CONTENT].Some? && a[CONTENT].value != []
    ensures ContentTypeCharset(m, a, known) == ApplyContentType(m, Split(a[CONTENT].value, SEMICOLON), known)
  {
  }

  /** A `<meta name="description">` with a `content` attribute replaces the description, even by `None`. */
  lemma MetaDescriptionOverwrites(m: Machine, tag: bytes, known: bytes -> bool)
    requires |tag| > 0 && tag == m.lastTag && m.lastAttrs.Some? && Lower(tag) == META
    requires AttrIs(m.lastAttrs.value, NAME, DESCRIPTION) && CONTENT in m.lastAttrs.value
    ensures FinishTag(m, tag, known).description == m.lastAttrs.value[CONTENT]
  {
  }

  // ---------------------------------------------------------------------
  // What only grows

  /** The title only grows once captured, and the head flag is never cleared. */
  predicate TitleGrows(m: Machine, n: Machine)
  {
    && (m.title.Some? ==> n.title.Some? && m.title.value <= n.title.value)
    && (m.headDone ==> n.headDone)
  }

  /** One byte keeps the title and the head flag growing, whatever the state. */
  lemma StepGrows(m: Machine, c: byte, known: bytes -> bool)
    requires Valid(m)
    ensures TitleGrows(m, Step(m, c, known))
  {
    if m.state.TagSlash? || m.state.TagBang? || m.state.TagBangDash? || InTagName(m.state) {
      TagStepGrows(m, c, known);
    } else if InAttr(m.state) {
      AttrStepGrows(m, c, known);
    } else if InScript(m.state) {
      assert Step(m, c, known) == StepScript(m, c, known);
      ScriptGrows(m, c, known);
    } else if InStyle(m.state) {
      assert Step(m, c, known) == StepStyle(m, c, known);
      StyleGrows(m, c, known);
    } else {
      TextStepGrows(m, c, known);
    }
  }

  lemma TextStepGrows(m: Machine, c: byte, known: bytes -> bool)
    requires m.state.Content? || m.state.Tag? || m.state.Comment? || m.state.CommentDash? || m.state.CommentDashDash?
    ensures TitleGrows(m, Step(m, c, known))
  {
    assert !InScript(m.state) && !InStyle(m.state);
    match m.state
    case Content => assert Step(m, c, known) == StepContent(m, c);
    case Tag => assert Step(m, c, known) == StepTag(m, c);
    case Comment | CommentDash | CommentDashDash => assert Step(m, c, known) == StepComment(m, c);
  }

  lemma TagStepGrows(m: Machine, c: byte, known: bytes -> bool)
    requires m.state.TagSlash? || m.state.TagBang? || m.state.TagBangDash? || InTagName(m.state)
    requires Valid(m)
    ensures TitleGrows(m, Step(m, c, known))
  {
    match m.state
    case TagSlash => TagSlashStepGrows(m, c, known);
    case TagBang => TagBangStepGrows(m, c, known);
    case TagBangDash => TagBangDashStepGrows(m, c, known);
    case TagName => TagNameStepGrows(m, c, known);
    case TagNameSlash => TagNameSlashStepGrows(m, c, known);
  }

  lemma TagSlashStepGrows(m: Machine, c: byte, known: bytes -> bool)
    requires m.state.TagSlash? && Valid(m)
    ensures TitleGrows(m, Step(m, c, known))
  {
    assert !InScript(m.state) && !InStyle(m.state);
    assert Step(m, c, known) == StepPrefixed(m, c, [SLASH], None, known);
    PrefixedGrows(m, c, [SLASH], None, known);
  }

  lemma TagBangStepGrows(m: Machine, c: byte, known: bytes -> bool)
    requires m.state.TagBang? && Valid(m)
    ensures TitleGrows(m, Step(m, c, known))
  {
    assert !InScript(m.state) && !InStyle(m.state);
    assert Step(m, c, known) == StepPrefixed(m, c, [BANG], Some(TagBangDash), known);
    PrefixedGrows(m, c, [BANG], Some(TagBangDash), known);
  }

  lemma TagBangDashStepGrows(m: Machine, c: byte, known: bytes -> bool)
    requires m.state.TagBangDash? && Valid(m)
    ensures TitleGrows(m, Step(m, c, known))
  {
    assert !InScript(m.state) && !InStyle(m.state);
    assert Step(m, c, known) == StepPrefixed(m, c, [BANG, DASH], Some(Comment), known);
    PrefixedGrows(m, c, [BANG, DASH], Some(Comment), known);
  }

  lemma TagNameStepGrows(m: Machine, c: byte, known: bytes -> bool)
    requires m.state.TagName? && Valid(m)
    ensures TitleGrows(m, Step(m, c, known))
  {
    assert !InScript(m.state) && !InStyle(m.state);
    assert Step(m, c, known) == StepTagName(m, c, known);
    TagNameGrows(m, c, known);
  }

  lemma TagNameSlashStepGrows(m: Machine, c: byte, known: bytes -> bool)
    requires m.state.TagNameSlash? && Valid(m)
    ensures TitleGrows(m, Step(m, c, known))
  {
    assert !InScript(m.state) && !InStyle(m.state);
    assert Step(m, c, known) == StepTagNameSlash(m, c, known);
    TagNameSlashGrows(m, c, known);
  }

  lemma AttrStepGrows(m: Machine, c: byte, known: bytes -> bool)
    requires InAttr(m.state) && Valid(m)
    ensures TitleGrows(m, Step(m, c, known))
  {
    match m.state
    case AttrName => AttrNameStepGrows(m, c, known);
    case AttrNameSlash => AttrNameSlashStepGrows(m, c, known);
    case AttrValue => AttrValueStepGrows(m, c, known);
    case AttrQuote => assert Step(m, c, known) == StepAttrQuote(m, c);
    case AttrValueSlash => AttrValueSlashStepGrows(m, c, known);
  }

  lemma AttrNameStepGrows(m: Machine, c: byte, known: bytes -> bool)
    requires m.state.AttrName? && Valid(m)
    ensures TitleGrows(m, Step(m, c, known))
  {
    assert !InScript(m.state) && !InStyle(m.state);
    assert Step(m, c, known) == StepAttrName(m, c, known);
    AttrNameGrows(m, c, known);
  }

  lemma AttrNameSlashStepGrows(m: Machine, c: byte, known: bytes -> bool)
    requires m.state.AttrNameSlash? && Valid(m)
    ensures TitleGrows(m, Step(m, c, known))
  {
    assert !InScript(m.state) && !InStyle(m.state);
    assert Step(m, c, known) == StepAttrNameSlash(m, c, known);
    AttrNameSlashGrows(m, c, known);
  }

  lemma AttrValueStepGrows(m: Machine, c: byte, known: bytes -> bool)
    requires m.state.AttrValue? && Valid(m)
    ensures TitleGrows(m, Step(m, c, known))
  {
    assert !InScript(m.state) && !InStyle(m.state);
    assert Step(m, c, known) == StepAttrValue(m, c, known);
    AttrValueGrows(m, c, known);
  }

  lemma AttrValueSlashStepGrows(m: Machine, c: byte, known: bytes -> bool)
    requires m.state.AttrValueSlash? && Valid(m)
    ensures TitleGrows(m, Step(m, c, known))
  {
    assert !InScript(m.state) && !InStyle(m.state);
    assert Step(m, c, known) == StepAttrValueSlash(m, c, known);
    AttrValueSlashGrows(m, c, known);
  }

  lemma AttrNameGrows(m: Machine, c: byte, known: bytes -> bool)
    requires m.state.AttrName? && Valid(m)
    ensures TitleGrows(m, StepAttrName(m, c, known))
  {
    var r := StepAttrName(m, c, known);
    if IsSpace(c) {
      var m1 := DispatchAttr(m, m.lastTag, m.lastAttr, None);
      assert r == m1.(lastAttr := [], lastValue := None);
    } else if c == LESS_THAN {
      var m1 := DispatchAttr(m, m.lastTag, m.lastAttr, None);
      assert r == Restart(m1);
    } else if c == GREATER_THAN {
      var m1 := DispatchAttr(m, m.lastTag, m.lastAttr, None);
      assert TitleGrows(m, m1) && TitleGrows(m1, FinishTag(m1, m.lastTag, known));
      assert r == FinishTag(m1, m.lastTag, known).(state := AfterTag(m.lastTag));
    }
  }

  lemma AttrNameSlashGrows(m: Machine, c: byte, known: bytes -> bool)
    requires m.state.AttrNameSlash? && Valid(m)
    ensures TitleGrows(m, StepAttrNameSlash(m, c, known))
  {
    var r := StepAttrNameSlash(m, c, known);
    if IsSpace(c) {
      var m1 := DispatchAttr(m, m.lastTag, m.lastAttr + [SLASH], None);
      assert r == m1.(lastAttr := [], lastValue := None);
    } else if c == LESS_THAN {
      var m1 := DispatchAttr(m, m.lastTag, m.lastAttr, None);
      assert r == Restart(m1);
    } else if c == GREATER_THAN {
      var m1 := DispatchAttr(m, m.lastTag, m.lastAttr, None);
      assert TitleGrows(m, m1) && TitleGrows(m1, FinishTag(m1, m.lastTag, known));
      assert r == FinishTag(m1, m.lastTag, known).(state := Content);
    }
  }

  lemma AttrValueGrows(m: Machine, c: byte, known: bytes -> bool)
    requires m.state.AttrValue? && Valid(m)
    ensures TitleGrows(m, StepAttrValue(m, c, known))
  {
    var r := StepAttrValue(m, c, known);
    if IsSpace(c) {
      var m1 := DispatchAttr(m, m.lastTag, m.lastAttr, m.lastValue);
      assert r == m1.(lastAttr := [], lastValue := None, state := AttrName);
    } else if c == LESS_THAN {
      var m1 := DispatchAttr(m, m.lastTag, m.lastAttr, m.lastValue);
      assert r == Restart(m1);
    } else if c == GREATER_THAN {
      var m1 := DispatchAttr(m, m.lastTag, m.lastAttr, m.lastValue);
      assert TitleGrows(m, m1) && TitleGrows(m1, FinishTag(m1, m.lastTag, known));
      assert r == FinishTag(m1, m.lastTag, known).(state := AfterTag(m.lastTag));
    }
  }

  lemma AttrValueSlashGrows(m: Machine, c: byte, known: bytes -> bool)
    requires m.state.AttrValueSlash? && Valid(m)
    ensures TitleGrows(m, StepAttrValueSlash(m, c, known))
  {
    var r := StepAttrValueSlash(m, c, known);
    if IsSpace(c) {
      var m1 := DispatchAttr(m, m.lastTag, m.lastAttr, Some(m.lastValue.value + [SLASH]));
      assert r == m1.(lastAttr := [], lastValue := None, state := AttrName);
    } else if c == LESS_THAN {
      var m1 := DispatchAttr(m, m.lastTag, m.lastAttr, m.lastValue);
      assert r == Restart(m1);
    } else if c == GREATER_THAN {
      var m1 := DispatchAttr(m, m.lastTag, m.lastAttr, m.lastValue);
      assert TitleGrows(m, m1) && TitleGrows(m1, FinishTag(m1, m.lastTag, known));
      assert r == FinishTag(m1, m.lastTag, known).(state := AfterTag(m.lastTag));
    }
  }

  lemma ScriptGrows(m: Machine, c: byte, known: bytes -> bool)
    requires InScript(m.state)
    ensures TitleGrows(m, StepScript(m, c, known))
  {
    if m.state.ScriptTagSlashScript? && c == GREATER_THAN {
      StartFinishGrows(m.(lastTag := SLASH_SCRIPT), SLASH_SCRIPT, known);
    }
  }

  lemma StyleGrows(m: Machine, c: byte, known: bytes -> bool)
    requires InStyle(m.state)
    ensures TitleGrows(m, StepStyle(m, c, known))
  {
    if m.state.StyleTagSlashStyle? && c == GREATER_THAN {
      assert StepStyle(m, c, known) == CloseRawText(m, SLASH_STYLE, known);
      StartFinishGrows(m.(lastTag := SLASH_STYLE), SLASH_STYLE, known);
    }
  }

  /** `_start_tag` followed by `_finish_tag` keeps the title and the head flag growing. */
  lemma StartFinishGrows(m: Machine, tag: bytes, known: bytes -> bool)
    requires |tag| > 0 ==> tag == m.lastTag
    ensures TitleGrows(m, StartTag(m, tag))
    ensures TitleGrows(m, FinishTag(StartTag(m, tag), tag, known))
  {
  }

  lemma PrefixedGrows(m: Machine, c: byte, prefix: bytes, onDash: Option<State>, known: bytes -> bool)
    requires 0 < |prefix|
    requires onDash.Some? ==> onDash.value == TagBangDash || onDash.value == Comment
    ensures TitleGrows(m, StepPrefixed(m, c, prefix, onDash, known))
  {
    StartFinishGrows(m.(lastTag := prefix), prefix, known);
  }

  lemma TagNameGrows(m: Machine, c: byte, known: bytes -> bool)
    requires m.state.TagName? && Valid(m)
    ensures TitleGrows(m, StepTagName(m, c, known))
  {
    var r := StepTagName(m, c, known);
    if IsSpace(c) {
      StartFinishGrows(m, m.lastTag, known);
      assert r == StartTag(m, m.lastTag).(state := AttrName);
    } else if c == LESS_THAN {
      StartFinishGrows(m, m.lastTag, known);
      assert r == StartTag(m, m.lastTag).(lastTag := [], state := Tag);
    } else if c == GREATER_THAN {
      StartFinishGrows(m, m.lastTag, known);
      assert r == FinishTag(StartTag(m, m.lastTag), m.lastTag, known).(state := AfterTag(m.lastTag));
    }
  }

  lemma TagNameSlashGrows(m: Machine, c: byte, known: bytes -> bool)
    requires m.state.TagNameSlash? && Valid(m)
    ensures TitleGrows(m, StepTagNameSlash(m, c, known))
  {
    var r := StepTagNameSlash(m, c, known);
    if IsSpace(c) {
      var tag := m.lastTag + [SLASH];
      StartFinishGrows(m.(lastTag := tag), tag, known);
      assert r == StartTag(m.(lastTag := tag), tag).(state := AttrName);
    } else if c == LESS_THAN {
      StartFinishGrows(m, m.lastTag, known);
      assert r == StartTag(m, m.lastTag).(lastTag := [], state := Tag);
    } else if c == GREATER_THAN {
      StartFinishGrows(m, m.lastTag, known);
      assert r == FinishTag(StartTag(m, m.lastTag), m.lastTag, known).(state := Content);
    }
  }

  lemma TitleGrowsTrans(m: Machine, x: Machine, n: Machine)
    requires TitleGrows(m, x) && TitleGrows(x, n)
    ensures TitleGrows(m, n)
  {
    if m.title.Some? {
      assert m.title.value <= x.title.value <= n.title.value;
    }
  }

  /** A whole `feed` keeps the title and the head flag growing. */
  lemma {:induction false} RunGrows(m: Machine, data: bytes, known: bytes -> bool)
    requires Valid(m)
    ensures TitleGrows(m, Run(m, data, known))
    decreases |data|
  {
    if data != [] {
      var m1 := Step(m, data[0], known);
      StepGrows(m, data[0], known);
      RunGrows(m1, data[1..], known);
      TitleGrowsTrans(m, m1, Run(m, data, known));
    }
  }

  // ---------------------------------------------------------------------
  // `enough`

  /**
   * `_is_enough` can turn false again: once a title, a description and a
   * charset are known, a `<meta name="description">` whose `content` has
   * no value resets the description to `None`.
   */
  lemma EnoughCanBeLost(known: bytes -> bool)
    ensures exists m: Machine, d: bytes :: Valid(m) && IsEnough(m) && !IsEnough(Run(m, d, known))
  {
    var m := EnoughBeforeMeta();
    DescriptionReset(known);
    assert Valid(m) && IsEnough(m) && !IsEnough(Run(m, [GREATER_THAN], known));
  }

  /** A machine with everything known, just before the `>` of `<meta name=description content`. */
  function EnoughBeforeMeta(): (m: Machine)
    ensures Valid(m) && IsEnough(m) && m.state.AttrName?
  {
    Init().(state := AttrName, lastTag := META, lastAttr := CONTENT,
            lastAttrs := Some(map[NAME := Some(DESCRIPTION)]),
            title := Some([]), description := Some([]), charset := Some([]))
  }

  /** The `>` of that `<meta>` resets the description to `None`. */
  lemma DescriptionReset(known: bytes -> bool)
    ensures Run(EnoughBeforeMeta(), [GREATER_THAN], known).description.None?
  {
    var m := EnoughBeforeMeta();
    var pending := m.(lastAttrs := Some(map[NAME := Some(DESCRIPTION), CONTENT := None]));
    PendingMetaResets(pending, known);
    assert Step(m, GREATER_THAN, known) == FinishTag(pending, META, known).(state := AfterTag(META)) by {
      AttrNameStep(m, GREATER_THAN, known);
      StepAttrNameCloses(m, known);
      MetaNamesLowerCase();
      assert WithAttr(m, CONTENT, None) == pending.lastAttrs;
    }
    RunOne(m, GREATER_THAN, known);
  }

  /** `<meta name=description content>` with no value for `content` sets the description to `None`. */
  lemma PendingMetaResets(m: Machine, known: bytes -> bool)
    requires m.lastTag == META && m.lastAttrs == Some(map[NAME := Some(DESCRIPTION), CONTENT := None])
    ensures FinishTag(m, META, known).description.None?
  {
    MetaNamesLowerCase();
    MetaDescriptionOverwrites(m, META, known);
  }

  /** In `attrname` a byte is handled by the attribute-name step. */
  lemma AttrNameStep(m: Machine, c: byte, known: bytes -> bool)
    requires m.state.AttrName? && Valid(m)
    ensures Step(m, c, known) == StepAttrName(m, c, known)
  {
    assert !InScript(m.state) && !InStyle(m.state);
  }

  /**
   * `feed` reports `head_done` as `enough`, not `_is_enough()`: a machine
   * that knows a title, a description and a charset is enough by
   * `_is_enough` and still reports not enough.
   */
  lemma EnoughIsHeadDoneOnly()
    ensures exists m :: IsEnough(m) && !Report(m).enough
  {
    var m := Init().(title := Some([]), description := Some([]), charset := Some([]));
    assert IsEnough(m) && !Report(m).enough;
  }
}
