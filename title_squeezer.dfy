/**
 * The `Squeezer` class of title_squeezer.py: its fields, updated in place
 * byte by byte by `Feed`, and its event handlers. Every method is proved to
 * leave the fields as the matching function of TitleSqueezerMachine says.
 */
module TitleSqueezer {
  import opened Wrappers
  import opened Bytes
  import opened Names
  import opened Tokenizer
  import M = TitleSqueezerMachine

  /** What `feed` gives back: the `Title`, or the `AttributeError` raised on an unfilled `</title>`. */
  datatype FeedResult = Returned(title: M.Title) | AttributeError

  class Squeezer {
    /** The codec lookup `b'A'.decode(name)` of `_set_charset`: true when it does not raise `LookupError`. */
    const knownCodec: bytes -> bool

    var state: State
    var lastTag: bytes
    var lastAttr: bytes
    var lastValue: Option<bytes>
    var lastAttrs: Option<Attrs>

    var charset: Option<bytes>
    var effCharset: bytes
    var insideTitle: bool
    var title: Option<bytes>
    var description: Option<bytes>
    var ogTitle: Option<bytes>
    var ogDescription: Option<bytes>
    var headDone: bool

    /** The fields as one value. */
    ghost function Snapshot(): M.Machine
      reads this
    {
      M.Machine(state, lastTag, lastAttr, lastValue, lastAttrs, charset, effCharset,
                insideTitle, title, description, ogTitle, ogDescription, headDone)
    }

    /** The tokenizer invariant, and an effective charset that decodes. */
    ghost predicate Valid()
      reads this
    {
      M.Valid(Snapshot()) && knownCodec(effCharset)
    }

    /**
     * `Squeezer(default_charset)`. The default must name a codec: otherwise
     * the `_log` argument `tag.decode(self.eff_charset, ...)` raises
     * `LookupError` at the first tag.
     */
    constructor (defaultCharset: bytes, knownCodec: bytes -> bool)
      requires knownCodec(defaultCharset)
      ensures Snapshot() == M.Init(defaultCharset) && this.knownCodec == knownCodec
      ensures Valid()
    {
      this.knownCodec := knownCodec;
      state := Content;
      lastTag := [];
      lastAttr := [];
      lastValue := None;
      lastAttrs := None;
      charset := None;
      effCharset := defaultCharset;
      insideTitle := false;
      title := None;
      description := None;
      ogTitle := None;
      ogDescription := None;
      headDone := false;
    }

    /** `_is_enough`. */
    predicate IsEnough()
      reads this
      ensures IsEnough() == M.IsEnough(Snapshot())
    {
      headDone || (charset.Some? && (ogTitle.Some? || title.Some?)
                   && (ogDescription.Some? || description.Some?))
    }

    /** `_dispatch_content`. */
    method DispatchContent(content: bytes)
      modifies this
      ensures Snapshot() == M.DispatchContent(old(Snapshot()), content)
    {
      if insideTitle {
        if title.None? {
          title := Some(content);
        } else {
          title := Some(title.value + content);
        }
      }
    }

    /** `_start_tag`; `raised` is the `AttributeError` of the `</title>` log line. */
    method StartTag(tag: bytes) returns (raised: bool)
      modifies this
      ensures M.Outcome(Snapshot(), raised) == M.StartTag(old(Snapshot()), tag)
    {
      raised := false;
      if |tag| == 0 {
        return;
      }
      lastAttrs := Some(map[]);
      var t := Lower(tag);
      if t == TITLE {
        if title.None? {
          insideTitle := true;
        }
      } else if t == SLASH_TITLE {
        if title.None? {
          raised := true;
          return;
        }
        insideTitle := false;
      } else if t == SLASH_HEAD {
        headDone := true;
      } else if t == BODY {
        headDone := true;
      }
    }

    /** `_dispatch_attr`: `lastattrs[attr.lower()] = value`. */
    method DispatchAttr(tag: bytes, attr: bytes, value: Option<bytes>)
      requires |attr| > 0 ==> tag == lastTag && lastAttrs.Some?
      modifies this
      ensures Snapshot() == M.DispatchAttr(old(Snapshot()), tag, attr, value)
    {
      if |attr| == 0 {
        return;
      }
      lastAttrs := Some(lastAttrs.value[Lower(attr) := value]);
    }

    /** `_set_charset`. */
    method SetCharset(value: Option<bytes>)
      modifies this
      ensures Snapshot() == M.SetCharset(old(Snapshot()), value, knownCodec)
    {
      if value.None? || |value.value| == 0 {
        return;
      }
      var name := Strip(value.value);
      charset := Some(name);
      if knownCodec(name) {
        effCharset := name;
      }
    }

    /** One `;`-separated piece of an `http-equiv` content. */
    method ApplyPiece(item: bytes)
      modifies this
      ensures Snapshot() == M.ApplyPiece(old(Snapshot()), item, knownCodec)
    {
      var kv := SplitOnce(item, EQUALS);
      if kv.Some? {
        var key := Strip(kv.value.0);
        var value := Strip(kv.value.1);
        if Lower(key) == CHARSET {
          SetCharset(Some(value));
        }
      }
    }

    /** The `http-equiv` branch of `_finish_tag`: each `;`-separated piece in turn. */
    method ApplyContentType(content: bytes)
      modifies this
      ensures Snapshot() == M.ApplyContentType(old(Snapshot()), Split(content, SEMICOLON), knownCodec)
    {
      var pieces := Split(content, SEMICOLON);
      ghost var m0 := Snapshot();
      var i := 0;
      while i < |pieces|
        invariant 0 <= i <= |pieces|
        invariant M.ApplyContentType(Snapshot(), pieces[i..], knownCodec) == M.ApplyContentType(m0, pieces, knownCodec)
      {
        ghost var before := Snapshot();
        assert pieces[i..][1..] == pieces[i + 1..];
        assert M.ApplyContentType(before, pieces[i..], knownCodec)
            == M.ApplyContentType(M.ApplyPiece(before, pieces[i], knownCodec), pieces[i + 1..], knownCodec);
        ApplyPiece(pieces[i]);
        i := i + 1;
      }
    }

    /** The charset part of a `<meta>`: the `charset` attribute, else a `Content-Type` `http-equiv`. */
    method CharsetFromMeta(attrs: Attrs)
      modifies this
      ensures Snapshot() == M.CharsetFromMeta(old(Snapshot()), attrs, knownCodec)
    {
      if CHARSET in attrs {
        SetCharset(attrs[CHARSET]);
      } else if HTTP_EQUIV in attrs {
        if LowerOrNone(attrs[HTTP_EQUIV]) == Some(CONTENT_TYPE) {
          var content := M.Get(attrs, CONTENT);
          if content.Some? && |content.value| > 0 {
            ApplyContentType(content.value);
          }
        }
      }
    }

    /** The description and Open Graph part of a `<meta>`: each field is filled only while it is still `None`. */
    method FillFields(attrs: Attrs)
      modifies this
      ensures Snapshot() == M.FillFields(old(Snapshot()), attrs)
    {
      if description.None? && M.AttrIs(attrs, NAME, DESCRIPTION) && CONTENT in attrs {
        description := attrs[CONTENT];
      }
      if ogTitle.None? && M.AttrIs(attrs, PROPERTY, OG_TITLE) && CONTENT in attrs {
        ogTitle := attrs[CONTENT];
      }
      if ogDescription.None? && M.AttrIs(attrs, PROPERTY, OG_DESCRIPTION) && CONTENT in attrs {
        ogDescription := attrs[CONTENT];
      }
    }

    /** The `<meta>` part of `_finish_tag`: the charset while none is known, then the other fields. */
    method ExtractMeta(attrs: Attrs)
      modifies this
      ensures Snapshot() == M.ExtractMeta(old(Snapshot()), attrs, knownCodec)
    {
      if charset.None? {
        CharsetFromMeta(attrs);
      }
      FillFields(attrs);
    }

    /** `_finish_tag`: its two asserts are the precondition. */
    method FinishTag(tag: bytes)
      requires |tag| > 0 ==> tag == lastTag && lastAttrs.Some?
      modifies this
      ensures Snapshot() == M.FinishTag(old(Snapshot()), tag, knownCodec)
    {
      if |tag| == 0 {
        return;
      }
      if Lower(tag) == META {
        ExtractMeta(lastAttrs.value);
      }
      lastAttrs := None;
    }

    /** `content` and `contentspace`. */
    method ConsumeContent(c: byte)
      requires state.Content? || state.ContentSpace?
      modifies this
      ensures Snapshot() == M.StepContent(old(Snapshot()), c)
    {
      if state.Content? {
        if IsSpace(c) {
          DispatchContent([SPACE]);
          state := ContentSpace;
        } else if c == LESS_THAN {
          lastTag, lastAttr, lastValue := [], [], None;
          state := Tag;
        } else {
          DispatchContent([c]);
        }
      } else {
        if IsSpace(c) {
        } else if c == LESS_THAN {
          lastTag, lastAttr, lastValue := [], [], None;
          state := Tag;
        } else {
          DispatchContent([c]);
          state := Content;
        }
      }
    }

    /** `tag`. */
    method ConsumeTag(c: byte)
      requires state.Tag?
      modifies this
      ensures Snapshot() == M.StepTag(old(Snapshot()), c)
    {
      if IsSpace(c) {
        DispatchContent(ESCAPED_LT + [c]);
        state := Content;
      } else if c == LESS_THAN {
        DispatchContent(ESCAPED_LT);
      } else if c == GREATER_THAN {
        DispatchContent(ESCAPED_LT + ESCAPED_GT);
        state := Content;
      } else if c == BANG {
        state := TagBang;
      } else if c == SLASH {
        state := TagSlash;
      } else {
        lastTag := [c];
        state := TagName;
      }
    }

    /** `tagslash`, `tagbang` and `tagbangdash`, after `</`, `<!` and `<!-`. */
    method ConsumePrefixed(c: byte, prefix: bytes, onDash: Option<State>)
      requires 0 < |prefix| < |SLASH_TITLE|
      requires onDash.Some? ==> onDash.value == TagBangDash || onDash.value == Comment
      modifies this
      ensures Snapshot() == M.StepPrefixed(old(Snapshot()), c, prefix, onDash, knownCodec)
    {
      var raised;
      if IsSpace(c) {
        lastTag := prefix;
        raised := StartTag(lastTag);
        state := AttrName;
      } else if c == LESS_THAN {
        DispatchContent(ESCAPED_LT + prefix);
        state := Tag;
      } else if c == GREATER_THAN {
        lastTag := prefix;
        raised := StartTag(lastTag);
        FinishTag(lastTag);
        state := Content;
      } else if c == DASH && onDash.Some? {
        state := onDash.value;
      } else {
        lastTag := prefix + [c];
        state := TagName;
      }
    }

    /** The state after `>` closed a tag: raw text for `script` and `style`. */
    method EnterAfterTag()
      modifies this
      ensures Snapshot() == old(Snapshot()).(state := M.AfterTag(lastTag))
    {
      if Lower(lastTag) == SCRIPT {
        state := Script;
      } else if Lower(lastTag) == STYLE {
        state := Style;
      } else {
        state := Content;
      }
    }

    /** `tagname`. */
    method ConsumeTagName(c: byte) returns (raised: bool)
      requires state.TagName? && M.Valid(Snapshot())
      modifies this
      ensures M.Outcome(Snapshot(), raised) == M.StepTagName(old(Snapshot()), c, knownCodec)
    {
      raised := false;
      if IsSpace(c) {
        raised := StartTag(lastTag);
        if raised { return; }
        state := AttrName;
      } else if c == LESS_THAN {
        raised := StartTag(lastTag);
        if raised { return; }
        lastTag := [];
        state := Tag;
      } else if c == GREATER_THAN {
        raised := StartTag(lastTag);
        if raised { return; }
        FinishTag(lastTag);
        EnterAfterTag();
      } else if c == SLASH {
        state := TagNameSlash;
      } else {
        lastTag := lastTag + [c];
      }
    }

    /** `tagnameslash`. */
    method ConsumeTagNameSlash(c: byte) returns (raised: bool)
      requires state.TagNameSlash? && M.Valid(Snapshot())
      modifies this
      ensures M.Outcome(Snapshot(), raised) == M.StepTagNameSlash(old(Snapshot()), c, knownCodec)
    {
      raised := false;
      if IsSpace(c) {
        lastTag := lastTag + [SLASH];
        raised := StartTag(lastTag);
        if raised { return; }
        state := AttrName;
      } else if c == LESS_THAN {
        raised := StartTag(lastTag);
        if raised { return; }
        lastTag := [];
        state := Tag;
      } else if c == GREATER_THAN {
        raised := StartTag(lastTag);
        if raised { return; }
        FinishTag(lastTag);
        state := Content;
      } else if c == SLASH {
        lastTag := lastTag + [SLASH];
      } else {
        lastTag := lastTag + [c];
        state := TagName;
      }
    }

    /** `attrname`. */
    method ConsumeAttrName(c: byte)
      requires state.AttrName? && M.Valid(Snapshot())
      modifies this
      ensures Snapshot() == M.StepAttrName(old(Snapshot()), c, knownCodec)
    {
      if IsSpace(c) {
        DispatchAttr(lastTag, lastAttr, None);
        lastAttr, lastValue := [], None;
      } else if c == LESS_THAN {
        DispatchAttr(lastTag, lastAttr, None);
        lastTag, lastAttr, lastValue := [], [], None;
        state := Tag;
      } else if c == GREATER_THAN {
        DispatchAttr(lastTag, lastAttr, None);
        FinishTag(lastTag);
        EnterAfterTag();
      } else if c == SLASH {
        state := AttrNameSlash;
      } else if c == EQUALS {
        lastValue := Some([]);
        state := AttrValue;
      } else {
        lastAttr := lastAttr + [c];
      }
    }

    /** `attrnameslash`. */
    method ConsumeAttrNameSlash(c: byte)
      requires state.AttrNameSlash? && M.Valid(Snapshot())
      modifies this
      ensures Snapshot() == M.StepAttrNameSlash(old(Snapshot()), c, knownCodec)
    {
      if IsSpace(c) {
        lastAttr := lastAttr + [SLASH];
        DispatchAttr(lastTag, lastAttr, None);
        lastAttr, lastValue := [], None;
      } else if c == LESS_THAN {
        DispatchAttr(lastTag, lastAttr, None);
        lastTag, lastAttr, lastValue := [], [], None;
        state := Tag;
      } else if c == GREATER_THAN {
        DispatchAttr(lastTag, lastAttr, None);
        FinishTag(lastTag);
        state := Content;
      } else if c == SLASH {
        lastAttr := lastAttr + [SLASH];
      } else if c == EQUALS {
        lastValue := Some([]);
        state := AttrValue;
      } else {
        lastAttr := lastAttr + [c];
        state := AttrName;
      }
    }

    /** `attrvalue`. */
    method ConsumeAttrValue(c: byte)
      requires state.AttrValue? && M.Valid(Snapshot())
      modifies this
      ensures Snapshot() == M.StepAttrValue(old(Snapshot()), c, knownCodec)
    {
      if IsSpace(c) {
        DispatchAttr(lastTag, lastAttr, lastValue);
        lastAttr, lastValue := [], None;
        state := AttrName;
      } else if c == LESS_THAN {
        DispatchAttr(lastTag, lastAttr, lastValue);
        lastTag, lastAttr, lastValue := [], [], None;
        state := Tag;
      } else if c == GREATER_THAN {
        DispatchAttr(lastTag, lastAttr, lastValue);
        FinishTag(lastTag);
        EnterAfterTag();
      } else if c == SLASH {
        state := AttrValueSlash;
      } else if c == QUOTE {
        state := AttrQuote;
      } else {
        lastValue := Some(lastValue.value + [c]);
      }
    }

    /** `attrquote`. */
    method ConsumeAttrQuote(c: byte)
      requires state.AttrQuote? && M.Valid(Snapshot())
      modifies this
      ensures Snapshot() == M.StepAttrQuote(old(Snapshot()), c)
    {
      if c == QUOTE {
        state := AttrValue;
      } else {
        lastValue := Some(lastValue.value + [c]);
      }
    }

    /** `attrvalueslash`. */
    method ConsumeAttrValueSlash(c: byte)
      requires state.AttrValueSlash? && M.Valid(Snapshot())
      modifies this
      ensures Snapshot() == M.StepAttrValueSlash(old(Snapshot()), c, knownCodec)
    {
      if IsSpace(c) {
        lastValue := Some(lastValue.value + [SLASH]);
        DispatchAttr(lastTag, lastAttr, lastValue);
        lastAttr, lastValue := [], None;
        state := AttrName;
      } else if c == LESS_THAN {
        DispatchAttr(lastTag, lastAttr, lastValue);
        lastTag, lastAttr, lastValue := [], [], None;
        state := Tag;
      } else if c == GREATER_THAN {
        DispatchAttr(lastTag, lastAttr, lastValue);
        FinishTag(lastTag);
        EnterAfterTag();
      } else if c == SLASH {
        lastValue := Some(lastValue.value + [SLASH]);
      } else if c == QUOTE {
        state := AttrQuote;
      } else {
        lastValue := Some(lastValue.value + [c]);
        state := AttrValue;
      }
    }

    /** `comment`, `commentdash` and `commentdashdash`. */
    method ConsumeComment(c: byte)
      requires state.Comment? || state.CommentDash? || state.CommentDashDash?
      modifies this
      ensures Snapshot() == M.StepComment(old(Snapshot()), c)
    {
      if state.Comment? {
        if c == DASH {
          state := CommentDash;
        }
      } else if state.CommentDash? {
        if c == DASH {
          state := CommentDashDash;
        } else {
          state := Comment;
        }
      } else {
        if c == GREATER_THAN {
          state := Content;
        } else {
          state := Comment;
        }
      }
    }

    /** The synthesised `</script>` or `</style>` that ends raw text. */
    method CloseRawText(tag: bytes)
      requires tag == SLASH_SCRIPT || tag == SLASH_STYLE
      modifies this
      ensures Snapshot() == M.CloseRawText(old(Snapshot()), tag, knownCodec)
    {
      lastTag := tag;
      var raised := StartTag(lastTag);
      FinishTag(lastTag);
      state := Content;
    }

    /** The nine `script` states. */
    method ConsumeScript(c: byte)
      requires InScript(state)
      modifies this
      ensures Snapshot() == M.StepScript(old(Snapshot()), c, knownCodec)
    {
      if state.ScriptTagSlashScript? && c == GREATER_THAN {
        CloseRawText(SLASH_SCRIPT);
      } else {
        state := ScriptNext(state, c);
      }
    }

    /** The eight `style` states. */
    method ConsumeStyle(c: byte)
      requires InStyle(state)
      modifies this
      ensures Snapshot() == M.StepStyle(old(Snapshot()), c, knownCodec)
    {
      if state.StyleTagSlashStyle? && c == GREATER_THAN {
        CloseRawText(SLASH_STYLE);
      } else {
        state := StyleNext(state, c);
      }
    }

    /** One iteration of the loop in `feed`: dispatch on `state`. */
    method Consume(c: byte) returns (raised: bool)
      requires Valid()
      modifies this
      ensures M.Outcome(Snapshot(), raised) == M.Step(old(Snapshot()), c, knownCodec)
    {
      raised := false;
      if InScript(state) {
        ConsumeScript(c);
      } else if InStyle(state) {
        ConsumeStyle(c);
      } else {
        match state
        case Content | ContentSpace => ConsumeContent(c);
        case Tag => ConsumeTag(c);
        case TagSlash => ConsumePrefixed(c, [SLASH], None);
        case TagBang => ConsumePrefixed(c, [BANG], Some(TagBangDash));
        case TagBangDash => ConsumePrefixed(c, [BANG, DASH], Some(Comment));
        case TagName => raised := ConsumeTagName(c);
        case TagNameSlash => raised := ConsumeTagNameSlash(c);
        case AttrName => ConsumeAttrName(c);
        case AttrNameSlash => ConsumeAttrNameSlash(c);
        case AttrValue => ConsumeAttrValue(c);
        case AttrQuote => ConsumeAttrQuote(c);
        case AttrValueSlash => ConsumeAttrValueSlash(c);
        case Comment | CommentDash | CommentDashDash => ConsumeComment(c);
      }
    }

    /**
     * `feed(data)`: every byte in order, then the `Title` of the fields; the
     * `AttributeError` of an unfilled `</title>` stops it at that byte.
     */
    method Feed(data: bytes) returns (r: FeedResult)
      requires Valid()
      modifies this
      ensures Valid()
      ensures M.Run(old(Snapshot()), data, knownCodec) == M.Outcome(Snapshot(), r.AttributeError?)
      ensures r.Returned? ==> r.title == M.Report(Snapshot())
    {
      var i := 0;
      while i < |data|
        invariant 0 <= i <= |data|
        invariant Valid()
        invariant M.Run(old(Snapshot()), data, knownCodec) == M.Run(Snapshot(), data[i..], knownCodec)
      {
        assert data[i..][1..] == data[i + 1..];
        var raised := Consume(data[i]);
        if raised {
          return AttributeError;
        }
        i := i + 1;
      }
      r := Returned(M.Title(IsEnough(), OrElse(ogTitle, title), OrElse(ogDescription, description),
                            charset, effCharset));
    }
  }
}
