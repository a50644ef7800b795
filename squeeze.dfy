/**
 * The `Squeezer` class of squeeze.py, the earlier variant: its fields,
 * updated in place byte by byte by `Feed`, and its event handlers. Every
 * method is proved to leave the fields as the matching function of
 * SqueezeMachine says.
 */
module Squeeze {
  import opened Wrappers
  import opened Bytes
  import opened Names
  import opened Tokenizer
  import M = SqueezeMachine

  class Squeezer {
    /**
     * The codec lookup that `tag.decode(self.eff_charset, 'replace')` in
     * `_start_tag` and `b'A'.decode(charset, 'replace')` in `_set_charset`
     * perform: true when the name does not raise `LookupError`.
     */
    const knownCodec: bytes -> bool

    var state: State
    var lastTag: bytes
    var lastAttr: bytes
    var lastValue: Option<bytes>
    var lastAttrs: Option<Attrs>

    var insideTitle: bool
    var title: Option<bytes>
    var description: Option<bytes>
    var charset: Option<bytes>
    var effCharset: bytes
    var headDone: bool

    /** The fields as one value. */
    ghost function Snapshot(): M.Machine
      reads this
    {
      M.Machine(state, lastTag, lastAttr, lastValue, lastAttrs, insideTitle, title, description,
                charset, effCharset, headDone)
    }

    /** The tokenizer invariant, and an effective charset that `_start_tag` can decode with. */
    ghost predicate Valid()
      reads this
    {
      M.Valid(Snapshot()) && knownCodec(effCharset)
    }

    /** `Squeezer()`: `UTF-8` must name a codec. */
    constructor (knownCodec: bytes -> bool)
      requires knownCodec(UTF_8)
      ensures Snapshot() == M.Init() && this.knownCodec == knownCodec
      ensures Valid()
    {
      this.knownCodec := knownCodec;
      state := Content;
      lastTag := [];
      lastAttr := [];
      lastValue := None;
      lastAttrs := None;
      insideTitle := false;
      title := None;
      description := None;
      charset := None;
      effCharset := UTF_8;
      headDone := false;
    }

    /** `_is_enough`, which `feed` never calls. */
    predicate IsEnough()
      reads this
      ensures IsEnough() == M.IsEnough(Snapshot())
    {
      headDone || (title.Some? && description.Some? && charset.Some?)
    }

    /** `_dispatch_content`. */
    method DispatchContent(content: bytes)
      modifies this
      ensures Snapshot() == M.DispatchContent(old(Snapshot()), content)
    {
      if insideTitle {
        if title.None? {
          title := Some(content);
        } else {
          title := Some(title.value + content);
        }
      }
    }

    /** `_start_tag`. */
    method StartTag(tag: bytes)
      modifies this
      ensures Snapshot() == M.StartTag(old(Snapshot()), tag)
    {
      if |tag| == 0 {
        return;
      }
      lastAttrs := Some(map[]);
      var t := Lower(tag);
      if t == TITLE {
        insideTitle := true;
      } else if t == SLASH_TITLE {
        insideTitle := false;
      } else if t == SLASH_HEAD {
        headDone := true;
      } else if t == BODY {
        headDone := true;
      }
    }

    /** `_dispatch_attr`: `lastattrs[attr.lower()] = value`. */
    method DispatchAttr(tag: bytes, attr: bytes, value: Option<bytes>)
      requires |attr| > 0 ==> tag == lastTag && lastAttrs.Some?
      modifies this
      ensures Snapshot() == M.DispatchAttr(old(Snapshot()), tag, attr, value)
    {
      if |attr| == 0 {
        return;
      }
      lastAttrs := Some(lastAttrs.value[Lower(attr) := value]);
    }

    /** `_set_charset`. */
    method SetCharset(value: Option<bytes>)
      modifies this
      ensures Snapshot() == M.SetCharset(old(Snapshot()), value, knownCodec)
    {
      if value.None? || |value.value| == 0 {
        return;
      }
      var name := Strip(value.value);
      charset := Some(name);
      if knownCodec(name) {
        effCharset := name;
      }
    }

    /** One `;`-separated piece of an `http-equiv` content. */
    method ApplyPiece(item: bytes)
      modifies this
      ensures Snapshot() == M.ApplyPiece(old(Snapshot()), item, knownCodec)
    {
      var kv := SplitOnce(item, EQUALS);
      if kv.Some? {
        var key := Strip(kv.value.0);
        var value := Strip(kv.value.1);
        if Lower(key) == CHARSET {
          SetCharset(Some(value));
        }
      }
    }

    /** The `http-equiv` loop of `_finish_tag`: each `;`-separated piece in turn. */
    method ApplyContentType(content: bytes)
      modifies this
      ensures Snapshot() == M.ApplyContentType(old(Snapshot()), Split(content, SEMICOLON), knownCodec)
    {
      var pieces := Split(content, SEMICOLON);
      ghost var m0 := Snapshot();
      var i := 0;
      while i < |pieces|
        invariant 0 <= i <= |pieces|
        invariant M.ApplyContentType(Snapshot(), pieces[i..], knownCodec) == M.ApplyContentType(m0, pieces, knownCodec)
      {
        ghost var before := Snapshot();
        assert pieces[i..][1..] == pieces[i + 1..];
        assert M.ApplyContentType(before, pieces[i..], knownCodec)
            == M.ApplyContentType(M.ApplyPiece(before, pieces[i], knownCodec), pieces[i + 1..], knownCodec);
        ApplyPiece(pieces[i]);
        i := i + 1;
      }
    }

    /** The charset part of a `<meta>`: the `charset` attribute, then a `Content-Type` `http-equiv`. */
    method CharsetFromMeta(attrs: Attrs)
      modifies this
      ensures Snapshot() == M.CharsetFromMeta(old(Snapshot()), attrs, knownCodec)
    {
      if CHARSET in attrs {
        SetCharset(attrs[CHARSET]);
      }
      if HTTP_EQUIV in attrs {
        if LowerOrNone(attrs[HTTP_EQUIV]) == Some(CONTENT_TYPE) {
          var content := M.Get(attrs, CONTENT);
          if content.Some? && |content.value| > 0 {
            ApplyContentType(content.value);
          }
        }
      }
    }

    /** The `<meta>` part of `_finish_tag`: what it declares overwrites what was known. */
    method ExtractMeta(attrs: Attrs)
      modifies this
      ensures Snapshot() == M.ExtractMeta(old(Snapshot()), attrs, knownCodec)
    {
      CharsetFromMeta(attrs);
      if M.AttrIs(attrs, NAME, DESCRIPTION) && CONTENT in attrs {
        description := attrs[CONTENT];
      }
    }

    /** `_finish_tag`: its two asserts are the precondition. */
    method FinishTag(tag: bytes)
      requires |tag| > 0 ==> tag == lastTag && lastAttrs.Some?
      modifies this
      ensures Snapshot() == M.FinishTag(old(Snapshot()), tag, knownCodec)
    {
      if |tag| == 0 {
        return;
      }
      if Lower(tag) == META {
        ExtractMeta(lastAttrs.value);
      }
      lastAttrs := None;
    }

    /** `content`. */
    method ConsumeContent(c: byte)
      requires state.Content?
      modifies this
      ensures Snapshot() == M.StepContent(old(Snapshot()), c)
    {
      if c == LESS_THAN {
        lastTag, lastAttr, lastValue := [], [], None;
        state := Tag;
      } else {
        DispatchContent([c]);
      }
    }

    /** `tag`. */
    method ConsumeTag(c: byte)
      requires state.Tag?
      modifies this
      ensures Snapshot() == M.StepTag(old(Snapshot()), c)
    {
      if IsSpace(c) {
        DispatchContent(ESCAPED_LT + [c]);
        state := Content;
      } else if c == LESS_THAN {
        DispatchContent(ESCAPED_LT);
      } else if c == GREATER_THAN {
        DispatchContent(ESCAPED_LT + ESCAPED_GT);
        state := Content;
      } else if c == BANG {
        state := TagBang;
      } else if c == SLASH {
        state := TagSlash;
      } else {
        lastTag := [c];
        state := TagName;
      }
    }

    /** `tagslash`, `tagbang` and `tagbangdash`, after `</`, `<!` and `<!-`. */
    method ConsumePrefixed(c: byte, prefix: bytes, onDash: Option<State>)
      requires 0 < |prefix|
      requires onDash.Some? ==> onDash.value == TagBangDash || onDash.value == Comment
      modifies this
      ensures Snapshot() == M.StepPrefixed(old(Snapshot()), c, prefix, onDash, knownCodec)
    {
      if IsSpace(c) {
        lastTag := prefix;
        StartTag(lastTag);
        state := AttrName;
      } else if c == LESS_THAN {
        DispatchContent(ESCAPED_LT + prefix);
        state := Tag;
      } else if c == GREATER_THAN {
        lastTag := prefix;
        StartTag(lastTag);
        FinishTag(lastTag);
        state := Content;
      } else if c == DASH && onDash.Some? {
        state := onDash.value;
      } else {
        lastTag := prefix + [c];
        state := TagName;
      }
    }

    /** The state after `>` closed a tag: raw text for `script` and `style`. */
    method EnterAfterTag()
      modifies this
      ensures Snapshot() == old(Snapshot()).(state := M.AfterTag(lastTag))
    {
      if Lower(lastTag) == SCRIPT {
        state := Script;
      } else if Lower(lastTag) == STYLE {
        state := Style;
      } else {
        state := Content;
      }
    }

    /** `tagname`. */
    method ConsumeTagName(c: byte)
      requires state.TagName? && M.Valid(Snapshot())
      modifies this
      ensures Snapshot() == M.StepTagName(old(Snapshot()), c, knownCodec)
    {
      if IsSpace(c) {
        StartTag(lastTag);
        state := AttrName;
      } else if c == LESS_THAN {
        StartTag(lastTag);
        lastTag := [];
        state := Tag;
      } else if c == GREATER_THAN {
        StartTag(lastTag);
        FinishTag(lastTag);
        EnterAfterTag();
      } else if c == SLASH {
        state := TagNameSlash;
      } else {
        lastTag := lastTag + [c];
      }
    }

    /** `tagnameslash`. */
    method ConsumeTagNameSlash(c: byte)
      requires state.TagNameSlash? && M.Valid(Snapshot())
      modifies this
      ensures Snapshot() == M.StepTagNameSlash(old(Snapshot()), c, knownCodec)
    {
      if IsSpace(c) {
        lastTag := lastTag + [SLASH];
        StartTag(lastTag);
        state := AttrName;
      } else if c == LESS_THAN {
        StartTag(lastTag);
        lastTag := [];
        state := Tag;
      } else if c == GREATER_THAN {
        StartTag(lastTag);
        FinishTag(lastTag);
        state := Content;
      } else if c == SLASH {
        lastTag := lastTag + [SLASH];
      } else {
        lastTag := lastTag + [c];
        state := TagName;
      }
    }

    /** `attrname`. */
    method ConsumeAttrName(c: byte)
      requires state.AttrName? && M.Valid(Snapshot())
      modifies this
      ensures Snapshot() == M.StepAttrName(old(Snapshot()), c, knownCodec)
    {
      if IsSpace(c) {
        DispatchAttr(lastTag, lastAttr, None);
        lastAttr, lastValue := [], None;
      } else if c == LESS_THAN {
        DispatchAttr(lastTag, lastAttr, None);
        lastTag, lastAttr, lastValue := [], [], None;
        state := Tag;
      } else if c == GREATER_THAN {
        DispatchAttr(lastTag, lastAttr, None);
        FinishTag(lastTag);
        EnterAfterTag();
      } else if c == SLASH {
        state := AttrNameSlash;
      } else if c == EQUALS {
        lastValue := Some([]);
        state := AttrValue;
      } else {
        lastAttr := lastAttr + [c];
      }
    }

    /** `attrnameslash`. */
    method ConsumeAttrNameSlash(c: byte)
      requires state.AttrNameSlash? && M.Valid(Snapshot())
      modifies this
      ensures Snapshot() == M.StepAttrNameSlash(old(Snapshot()), c, knownCodec)
    {
      if IsSpace(c) {
        lastAttr := lastAttr + [SLASH];
        DispatchAttr(lastTag, lastAttr, None);
        lastAttr, lastValue := [], None;
      } else if c == LESS_THAN {
        DispatchAttr(lastTag, lastAttr, None);
        lastTag, lastAttr, lastValue := [], [], None;
        state := Tag;
      } else if c == GREATER_THAN {
        DispatchAttr(lastTag, lastAttr, None);
        FinishTag(lastTag);
        state := Content;
      } else if c == SLASH {
        lastAttr := lastAttr + [SLASH];
      } else if c == EQUALS {
        lastValue := Some([]);
        state := AttrValue;
      } else {
        lastAttr := lastAttr + [c];
        state := AttrName;
      }
    }

    /** `attrvalue`. */
    method ConsumeAttrValue(c: byte)
      requires state.AttrValue? && M.Valid(Snapshot())
      modifies this
      ensures Snapshot() == M.StepAttrValue(old(Snapshot()), c, knownCodec)
    {
      if IsSpace(c) {
        DispatchAttr(lastTag, lastAttr, lastValue);
        lastAttr, lastValue := [], None;
        state := AttrName;
      } else if c == LESS_THAN {
        DispatchAttr(lastTag, lastAttr, lastValue);
        lastTag, lastAttr, lastValue := [], [], None;
        state := Tag;
      } else if c == GREATER_THAN {
        DispatchAttr(lastTag, lastAttr, lastValue);
        FinishTag(lastTag);
        EnterAfterTag();
      } else if c == SLASH {
        state := AttrValueSlash;
      } else if c == QUOTE {
        state := AttrQuote;
      } else {
        lastValue := Some(lastValue.value + [c]);
      }
    }

    /** `attrquote`. */
    method ConsumeAttrQuote(c: byte)
      requires state.AttrQuote? && M.Valid(Snapshot())
      modifies this
      ensures Snapshot() == M.StepAttrQuote(old(Snapshot()), c)
    {
      if c == QUOTE {
        state := AttrValue;
      } else {
        lastValue := Some(lastValue.value + [c]);
      }
    }

    /** `attrvalueslash`. */
    method ConsumeAttrValueSlash(c: byte)
      requires state.AttrValueSlash? && M.Valid(Snapshot())
      modifies this
      ensures Snapshot() == M.StepAttrValueSlash(old(Snapshot()), c, knownCodec)
    {
      if IsSpace(c) {
        lastValue := Some(lastValue.value + [SLASH]);
        DispatchAttr(lastTag, lastAttr, lastValue);
        lastAttr, lastValue := [], None;
        state := AttrName;
      } else if c == LESS_THAN {
        DispatchAttr(lastTag, lastAttr, lastValue);
        lastTag, lastAttr, lastValue := [], [], None;
        state := Tag;
      } else if c == GREATER_THAN {
        DispatchAttr(lastTag, lastAttr, lastValue);
        FinishTag(lastTag);
        EnterAfterTag();
      } else if c == SLASH {
        lastValue := Some(lastValue.value + [SLASH]);
      } else if c == QUOTE {
        state := AttrQuote;
      } else {
        lastValue := Some(lastValue.value + [c]);
        state := AttrValue;
      }
    }

    /** `comment`, `commentdash` and `commentdashdash`. */
    method ConsumeComment(c: byte)
      requires state.Comment? || state.CommentDash? || state.CommentDashDash?
      modifies this
      ensures Snapshot() == M.StepComment(old(Snapshot()), c)
    {
      if state.Comment? {
        if c == DASH {
          state := CommentDash;
        }
      } else if state.CommentDash? {
        if c == DASH {
          state := CommentDashDash;
        } else {
          state := Comment;
        }
      } else {
        if c == GREATER_THAN {
          state := Content;
        } else {
          state := Comment;
        }
      }
    }

    /** The synthesised `</script>` or `</style>` that ends raw text. */
    method CloseRawText(tag: bytes)
      requires tag == SLASH_SCRIPT || tag == SLASH_STYLE
      modifies this
      ensures Snapshot() == M.CloseRawText(old(Snapshot()), tag, knownCodec)
    {
      lastTag := tag;
      StartTag(lastTag);
      FinishTag(lastTag);
      state := Content;
    }

    /** The nine `script` states. */
    method ConsumeScript(c: byte)
      requires InScript(state)
      modifies this
      ensures Snapshot() == M.StepScript(old(Snapshot()), c, knownCodec)
    {
      if state.ScriptTagSlashScript? && c == GREATER_THAN {
        CloseRawText(SLASH_SCRIPT);
      } else {
        state := ScriptNext(state, c);
      }
    }

    /** The eight `style` states. */
    method ConsumeStyle(c: byte)
      requires InStyle(state)
      modifies this
      ensures Snapshot() == M.StepStyle(old(Snapshot()), c, knownCodec)
    {
      if state.StyleTagSlashStyle? && c == GREATER_THAN {
        CloseRawText(SLASH_STYLE);
      } else {
        state := StyleNext(state, c);
      }
    }

    /** One iteration of the loop in `feed`: dispatch on `state`. */
    method Consume(c: byte)
      requires Valid()
      modifies this
      ensures Snapshot() == M.Step(old(Snapshot()), c, knownCodec)
    {
      if InScript(state) {
        ConsumeScript(c);
      } else if InStyle(state) {
        ConsumeStyle(c);
      } else {
        match state
        case Content => ConsumeContent(c);
        case Tag => ConsumeTag(c);
        case TagSlash => ConsumePrefixed(c, [SLASH], None);
        case TagBang => ConsumePrefixed(c, [BANG], Some(TagBangDash));
        case TagBangDash => ConsumePrefixed(c, [BANG, DASH], Some(Comment));
        case TagName => ConsumeTagName(c);
        case TagNameSlash => ConsumeTagNameSlash(c);
        case AttrName => ConsumeAttrName(c);
        case AttrNameSlash => ConsumeAttrNameSlash(c);
        case AttrValue => ConsumeAttrValue(c);
        case AttrQuote => ConsumeAttrQuote(c);
        case AttrValueSlash => ConsumeAttrValueSlash(c);
        case Comment | CommentDash | CommentDashDash => ConsumeComment(c);
      }
    }

    /** `feed(data)`: every byte in order, then the `Title` of the fields. */
    method Feed(data: bytes) returns (t: M.Title)
      requires Valid()
      modifies this
      ensures Valid()
      ensures Snapshot() == M.Run(old(Snapshot()), data, knownCodec)
      ensures t == M.Report(Snapshot())
    {
      var i := 0;
      while i < |data|
        invariant 0 <= i <= |data|
        invariant Valid()
        invariant M.Run(old(Snapshot()), data, knownCodec) == M.Run(Snapshot(), data[i..], knownCodec)
      {
        assert data[i..][1..] == data[i + 1..];
        Consume(data[i]);
        i := i + 1;
      }
      t := M.Title(headDone, title, description, charset, effCharset);
    }
  }
}
