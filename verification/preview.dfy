/**
  The controller of app/views/component/editor/Preview.jsx, as a pure step
  function from (state, event) to (state, messages sent). The preview is a
  webview in its own process; the controller sends it the rendered HTML, the
  font size and scroll targets, and hears back when its DOM is ready, when
  its page script has loaded and when a link in it was clicked.

  React behaviour the model spells out: every `setState` re-renders the
  component and runs `componentDidUpdate` again with the props unchanged, so
  a state change resends `wv-render-html` when the webview is ready. A
  `setState` made inside `componentDidUpdate` takes effect after that call
  returns. An exception thrown from `componentDidUpdate` is not caught by the
  component; the model ends its life there (React unmounts a tree whose
  lifecycle method throws, and unmounting removes the listeners).
 */
module Preview {
  import opened Wrappers
  import opened Js
  import opened Layout

  /** The props the controller reads. */
  datatype Props = Props(
    html: string,
    theme: string,
    editorMode: string,
    fontSize: real,
    editorWidthValue: real,
    platform: string)

  /** The component state plus whether its listeners are still attached. */
  datatype State = State(
    props: Props,
    bodyWidth: BodyWidth,
    loading: bool,
    webviewReady: bool,
    mounted: bool)

  /** The layout as measured when a width is recomputed. The preview element
      itself is always attached by then. */
  datatype Measure = Measure(noteRoot: Option<NoteRoot>, offsetParentWidth: Option<real>)

  /** What reaches the controller: the webview's `dom-ready`, its
      `ipc-message`s, new props from the parent, a window resize, a
      `toc-jump` from the outline, and unmounting. */
  datatype Event =
    | DomReady
    | IpcMessage(channel: string, args: Option<seq<string>>)
    | PropsUpdate(props: Props, measure: Measure)
    | WindowResize(measure: Measure)
    | TocJump(depth: int, text: string)
    | Unmount

  /** What the controller sends: to the webview, and to the shell. */
  datatype Outbound =
    | RenderUpdate(html: string, editorMode: string, theme: string)
    | RenderFull(html: string, editorMode: string, fontSize: real, theme: string, platform: string)
    | ChangeFontSize(payload: Value)
    | ScrollTarget(depth: int, text: string)
    | OpenExternal(url: string)

  /** The webview's page script announcing it has loaded. */
  predicate IsFirstLoaded(e: Event) {
    e.IpcMessage? && e.channel == "wv-first-loaded"
  }

  datatype Reaction = Reaction(state: State, sent: seq<Outbound>)

  /** The constructor: no element is attached yet, so the width is 100%
      whatever the mode. */
  function Init(props: Props): (s: State)
    ensures s.props == props && s.bodyWidth == Percent100
    ensures s.loading && !s.webviewReady && s.mounted
  {
    var width := GetBodyWidth(props.editorMode, props.editorWidthValue, None, None);
    State(props, width.value, true, false, true)
  }

  /** `/^https?:\/\//i.test(href)`. */
  predicate IsExternalLink(href: string) {
    StartsWithIgnoringCase(href, "http://") || StartsWithIgnoringCase(href, "https://")
  }

  /** The `href` of a `did-click-link` message: its first argument, or the
      empty string when there are none. */
  function LinkTarget(args: Option<seq<string>>): string {
    if args.Some? && |args.value| > 0 then args.value[0] else ""
  }

  /** Facts every batch of messages keeps: render updates and font-size
      messages only once the webview is ready, a font-size message always
      carrying `undefined`, and a link opened only when it is http(s). */
  predicate Guarded(sent: seq<Outbound>, ready: bool) {
    forall i | 0 <= i < |sent| ::
      && (sent[i].RenderUpdate? || sent[i].ChangeFontSize? ==> ready)
      && (sent[i].ChangeFontSize? ==> sent[i].payload == Undefined)
      && (sent[i].OpenExternal? ==> IsExternalLink(sent[i].url))
  }

  /** No full render among the messages. */
  predicate NoFullRender(sent: seq<Outbound>) {
    forall i | 0 <= i < |sent| :: !sent[i].RenderFull?
  }

  /** The render message `componentDidUpdate` sends when the webview is ready. */
  function UpdateMessages(s: State): (r: seq<Outbound>)
    ensures Guarded(r, s.webviewReady) && NoFullRender(r)
    ensures |r| <= 1
    ensures s.webviewReady <==> |r| == 1
    ensures forall i | 0 <= i < |r| :: r[i] == RenderUpdate(s.props.html, s.props.editorMode, s.props.theme)
  {
    if s.webviewReady then [RenderUpdate(s.props.html, s.props.editorMode, s.props.theme)] else []
  }

  /** `const { fontSize } = this.props.fontSize`: a number has no `fontSize`
      property, so what is read is `undefined`. */
  function FontSizeProperty(n: real): Value {
    Undefined
  }

  /** The font-size message of `componentDidUpdate`. */
  function FontMessages(s: State, prev: Props): (r: seq<Outbound>)
    ensures Guarded(r, s.webviewReady) && NoFullRender(r)
    ensures |r| <= 1
    ensures |r| == 1 <==> s.props.fontSize != prev.fontSize && s.webviewReady
    ensures forall i | 0 <= i < |r| :: r[i] == ChangeFontSize(Undefined)
  {
    if s.props.fontSize != prev.fontSize then
      var fontSize := FontSizeProperty(s.props.fontSize);
      if s.webviewReady then [ChangeFontSize(fontSize)] else []
    else []
  }

  /** `getBodyWidth()` under the given props, against the measured layout. */
  function Remeasure(p: Props, m: Measure): Result<BodyWidth, JsError> {
    GetBodyWidth(p.editorMode, p.editorWidthValue, Some(PreviewNode(m.offsetParentWidth)), m.noteRoot)
  }

  /** The mode or the split share differ between two sets of props. */
  predicate LayoutChanged(p: Props, prev: Props) {
    p.editorMode != prev.editorMode || p.editorWidthValue != prev.editorWidthValue
  }

  /** `componentDidUpdate(prevProps)` with the new props already in `s`,
      followed by the re-render its own `setWidth` causes. */
  function DidUpdate(s: State, prev: Props, m: Measure): (r: Reaction)
    ensures !LayoutChanged(s.props, prev) ==> r.state == s
    ensures LayoutChanged(s.props, prev) && Remeasure(s.props, m).Success? ==>
      r.state == s.(bodyWidth := Remeasure(s.props, m).value)
    ensures LayoutChanged(s.props, prev) && Remeasure(s.props, m).Failure? ==> r.state == s.(mounted := false)
    ensures Guarded(r.sent, s.webviewReady) && NoFullRender(r.sent)
    ensures s.webviewReady <==> |r.sent| > 0 && r.sent[0] == RenderUpdate(s.props.html, s.props.editorMode, s.props.theme)
    ensures s.mounted && !r.state.mounted ==> LayoutChanged(s.props, prev)
    ensures forall i | 0 <= i < |r.sent| ::
      r.sent[i] == RenderUpdate(s.props.html, s.props.editorMode, s.props.theme) || r.sent[i] == ChangeFontSize(Undefined)
    ensures (exists i | 0 <= i < |r.sent| :: r.sent[i].ChangeFontSize?) <==>
      s.webviewReady && s.props.fontSize != prev.fontSize && !(LayoutChanged(s.props, prev) && Remeasure(s.props, m).Failure?)
    ensures |r.sent| == (if s.webviewReady then 1 else 0)
      + (if s.webviewReady && s.props.fontSize != prev.fontSize && !(LayoutChanged(s.props, prev) && Remeasure(s.props, m).Failure?) then 1 else 0)
      + (if s.webviewReady && LayoutChanged(s.props, prev) && Remeasure(s.props, m).Success? then 1 else 0)
  {
    var p := s.props;
    var first := UpdateMessages(s);
    if LayoutChanged(p, prev) then
      match Remeasure(p, m)
      case Failure(_) => Reaction(s.(mounted := false), first)
      case Success(w) =>
        var s' := s.(bodyWidth := w);
        var sent := first + FontMessages(s, prev) + UpdateMessages(s');
        assert s.webviewReady && p.fontSize != prev.fontSize ==> sent[|first|] == ChangeFontSize(Undefined);
        Reaction(s', sent)
    else
      var sent := first + FontMessages(s, prev);
      assert s.webviewReady && p.fontSize != prev.fontSize ==> sent[|first|] == ChangeFontSize(Undefined);
      Reaction(s, sent)
  }

  /** `setReady`, on the webview's `dom-ready`, and the re-render it causes. */
  function OnDomReady(s: State): (r: Reaction)
    ensures r.state == s.(webviewReady := true)
    ensures r.sent == [RenderUpdate(s.props.html, s.props.editorMode, s.props.theme)]
  {
    var s' := s.(webviewReady := true);
    Reaction(s', UpdateMessages(s'))
  }

  /** `onWVMessage(event)`. */
  function OnWVMessage(s: State, channel: string, args: Option<seq<string>>): (r: Reaction)
    ensures channel == "wv-first-loaded" ==>
      r.state == s.(loading := false) &&
      |r.sent| >= 1 && r.sent[0] == RenderFull(s.props.html, s.props.editorMode, s.props.fontSize, s.props.theme, s.props.platform) &&
      NoFullRender(r.sent[1..])
    ensures channel == "wv-first-loaded" ==>
      r.sent[1..] == if s.webviewReady then [RenderUpdate(s.props.html, s.props.editorMode, s.props.theme)] else []
    ensures channel != "wv-first-loaded" ==> r.state == s && NoFullRender(r.sent)
    ensures channel == "did-click-link" ==>
      r.sent == (if |LinkTarget(args)| > 0 && IsExternalLink(LinkTarget(args)) then [OpenExternal(LinkTarget(args))] else [])
    ensures channel != "wv-first-loaded" && channel != "did-click-link" ==> r.sent == []
    ensures Guarded(r.sent, s.webviewReady)
  {
    if channel == "wv-first-loaded" then
      var p := s.props;
      var s' := s.(loading := false);
      Reaction(s', [RenderFull(p.html, p.editorMode, p.fontSize, p.theme, p.platform)] + UpdateMessages(s'))
    else if channel == "did-click-link" then
      var href := LinkTarget(args);
      Reaction(s, if IsExternalLink(href) then [OpenExternal(href)] else [])
    else Reaction(s, [])
  }

  /** `onWindowResize`: only edit mode recomputes the width. */
  function OnWindowResize(s: State, m: Measure): (r: Reaction)
    ensures s.props.editorMode != "edit" ==> r == Reaction(s, [])
    ensures s.props.editorMode == "edit" ==>
      Remeasure(s.props, m).Success? &&
      r == Reaction(s.(bodyWidth := Remeasure(s.props, m).value), UpdateMessages(s))
    ensures Guarded(r.sent, s.webviewReady) && NoFullRender(r.sent)
  {
    if s.props.editorMode == "edit" then
      match Remeasure(s.props, m)
      case Failure(_) => Reaction(s, [])
      case Success(w) =>
        var s' := s.(bodyWidth := w);
        Reaction(s', UpdateMessages(s'))
    else Reaction(s, [])
  }

  /** `handleTOCJump(data)`: the webview is attached whenever this listener is. */
  function HandleTocJump(depth: int, text: string): (sent: seq<Outbound>)
    ensures |sent| <= 1 && Guarded(sent, false) && NoFullRender(sent)
    ensures |sent| == 1 <==> text != "" && depth != 0
    ensures |sent| == 1 ==> sent[0] == ScrollTarget(depth, text)
  {
    if text != "" && depth != 0 then [ScrollTarget(depth, text)] else []
  }

  /** The controller's reaction to one event. */
  function Step(s: State, e: Event): (r: Reaction)
    ensures !s.mounted ==> r == Reaction(s, [])
    ensures r.state.mounted ==> s.mounted
    ensures r.state.webviewReady <==> s.webviewReady || (s.mounted && e.DomReady?)
    ensures r.state.loading <==> s.loading && !(s.mounted && IsFirstLoaded(e))
    ensures r.state.props == (if s.mounted && e.PropsUpdate? then e.props else s.props)
    ensures !(s.mounted && IsFirstLoaded(e)) ==> NoFullRender(r.sent)
    ensures Guarded(r.sent, r.state.webviewReady)
  {
    if !s.mounted then Reaction(s, [])
    else
      match e
      case DomReady => OnDomReady(s)
      case IpcMessage(channel, args) => OnWVMessage(s, channel, args)
      case PropsUpdate(p, m) => DidUpdate(s.(props := p), s.props, m)
      case WindowResize(m) => OnWindowResize(s, m)
      case TocJump(depth, text) => Reaction(s, HandleTocJump(depth, text))
      case Unmount => Reaction(s.(mounted := false), [])
  }

  /** The reactions to a sequence of events, messages in the order sent. */
  function Run(s: State, events: seq<Event>): Reaction
    decreases |events|
  {
    if |events| == 0 then Reaction(s, [])
    else
      var first := Step(s, events[0]);
      var rest := Run(first.state, events[1..]);
      Reaction(rest.state, first.sent + rest.sent)
  }

  lemma GuardedConcat(a: seq<Outbound>, b: seq<Outbound>, ready: bool)
    requires Guarded(a, ready) && Guarded(b, ready)
    ensures Guarded(a + b, ready)
  {
    forall i | 0 <= i < |a + b|
      ensures var m := (a + b)[i];
        && (m.RenderUpdate? || m.ChangeFontSize? ==> ready)
        && (m.ChangeFontSize? ==> m.payload == Undefined)
        && (m.OpenExternal? ==> IsExternalLink(m.url))
    {
      if i >= |a| {
        assert (a + b)[i] == b[i - |a|];
      }
    }
  }

  lemma GuardedWeaken(a: seq<Outbound>)
    requires Guarded(a, false)
    ensures Guarded(a, true)
  {
  }

  lemma NoFullRenderConcat(a: seq<Outbound>, b: seq<Outbound>)
    requires NoFullRender(a) && NoFullRender(b)
    ensures NoFullRender(a + b)
  {
    forall i | 0 <= i < |a + b|
      ensures !(a + b)[i].RenderFull?
    {
      if i >= |a| {
        assert (a + b)[i] == b[i - |a|];
      }
    }
  }

  /** Readiness never goes back, and over any run every message keeps the
      guards: no link other than http(s) is ever opened, every font-size
      message carries `undefined`, and render updates wait for readiness. */
  lemma {:induction false} RunGuarded(s: State, events: seq<Event>)
    ensures s.webviewReady ==> Run(s, events).state.webviewReady
    ensures Guarded(Run(s, events).sent, Run(s, events).state.webviewReady)
    decreases |events|
  {
    if |events| > 0 {
      var first := Step(s, events[0]);
      var rest := Run(first.state, events[1..]);
      RunGuarded(first.state, events[1..]);
      if !rest.state.webviewReady {
        assert !first.state.webviewReady;
      } else if !first.state.webviewReady {
        GuardedWeaken(first.sent);
      }
      GuardedConcat(first.sent, rest.sent, rest.state.webviewReady);
    }
  }

  /** Until the webview reports `dom-ready` it is not ready, and nothing but
      full renders, scroll targets and opened links goes out: prop updates
      before that are dropped, not queued. */
  lemma {:induction false} NothingRenderedBeforeDomReady(s: State, events: seq<Event>)
    requires !s.webviewReady
    requires forall i | 0 <= i < |events| :: !events[i].DomReady?
    ensures !Run(s, events).state.webviewReady
    ensures Guarded(Run(s, events).sent, false)
    decreases |events|
  {
    if |events| > 0 {
      var first := Step(s, events[0]);
      NothingRenderedBeforeDomReady(first.state, events[1..]);
      GuardedConcat(first.sent, Run(first.state, events[1..]).sent, false);
    }
  }

  /** A full render goes out only in answer to `wv-first-loaded`, and the
      loading indicator only goes away then. */
  lemma {:induction false} FullRenderOnlyOnFirstLoaded(s: State, events: seq<Event>)
    requires forall i | 0 <= i < |events| :: !IsFirstLoaded(events[i])
    ensures NoFullRender(Run(s, events).sent)
    ensures Run(s, events).state.loading == s.loading
    decreases |events|
  {
    if |events| > 0 {
      var first := Step(s, events[0]);
      FullRenderOnlyOnFirstLoaded(first.state, events[1..]);
      NoFullRenderConcat(first.sent, Run(first.state, events[1..]).sent);
    }
  }

  /** Once unmounted, the controller hears nothing and sends nothing. */
  lemma {:induction false} UnmountedIsSilent(s: State, events: seq<Event>)
    requires !s.mounted
    ensures Run(s, events) == Reaction(s, [])
    decreases |events|
  {
    if |events| > 0 {
      UnmountedIsSilent(s, events[1..]);
    }
  }

  /** Inputs the editor can actually produce: a split share between 0 and 1
      and widths that are not negative. */
  predicate SaneProps(p: Props) {
    0.0 <= p.editorWidthValue <= 1.0
  }

  predicate SaneMeasure(m: Measure) {
    && (m.noteRoot.Some? ==> m.noteRoot.value.offsetWidth >= 0.0)
    && (m.offsetParentWidth.Some? ==> m.offsetParentWidth.value >= 0.0)
  }

  predicate SaneEvent(e: Event) {
    && (e.PropsUpdate? ==> SaneProps(e.props) && SaneMeasure(e.measure))
    && (e.WindowResize? ==> SaneMeasure(e.measure))
  }

  predicate WidthNonNegative(w: BodyWidth) {
    w.Px? ==> w.width >= 0.0
  }

  lemma StepKeepsWidth(s: State, e: Event)
    requires SaneProps(s.props) && WidthNonNegative(s.bodyWidth) && SaneEvent(e)
    ensures SaneProps(Step(s, e).state.props) && WidthNonNegative(Step(s, e).state.bodyWidth)
  {
    if s.mounted {
      match e
      case PropsUpdate(p, m) =>
        WidthInRange(p.editorMode, p.editorWidthValue, Some(PreviewNode(m.offsetParentWidth)), m.noteRoot);
      case WindowResize(m) =>
        WidthInRange(s.props.editorMode, s.props.editorWidthValue, Some(PreviewNode(m.offsetParentWidth)), m.noteRoot);
      case _ =>
    }
  }

  /** The preview body's width is never negative, whatever happens, as long
      as the editor's inputs are sane. */
  lemma {:induction false} RunKeepsWidth(s: State, events: seq<Event>)
    requires SaneProps(s.props) && WidthNonNegative(s.bodyWidth)
    requires forall i | 0 <= i < |events| :: SaneEvent(events[i])
    ensures WidthNonNegative(Run(s, events).state.bodyWidth)
    decreases |events|
  {
    if |events| > 0 {
      StepKeepsWidth(s, events[0]);
      RunKeepsWidth(Step(s, events[0]).state, events[1..]);
    }
  }

  /** The webview's page script can load before its `dom-ready`: the full
      render then goes out although the webview is not marked ready. */
  lemma FirstLoadedBeforeDomReady(p: Props, args: Option<seq<string>>)
    ensures Run(Init(p), [IpcMessage("wv-first-loaded", args)]) ==
      Reaction(Init(p).(loading := false), [RenderFull(p.html, p.editorMode, p.fontSize, p.theme, p.platform)])
  {
  }

  /** A prop update before the webview is ready sends nothing; the full
      render that follows carries the latest props. The one exception is a
      layout change whose width cannot be measured: that ends the component,
      and the page script's message then goes unheard. */
  lemma LatestPropsOnFirstLoad(p: Props, q: Props, m: Measure)
    ensures Run(Init(p), [PropsUpdate(q, m), IpcMessage("wv-first-loaded", None)]).sent ==
      if LayoutChanged(q, p) && Remeasure(q, m).Failure? then []
      else [RenderFull(q.html, q.editorMode, q.fontSize, q.theme, q.platform)]
  {
    var events := [PropsUpdate(q, m), IpcMessage("wv-first-loaded", None)];
    var s1 := Step(Init(p), events[0]);
    assert s1.sent == [];
    assert events[1..] == [IpcMessage("wv-first-loaded", None)];
    var s2 := Step(s1.state, events[1]);
    assert Run(s2.state, events[1..][1..]) == Reaction(s2.state, []);
    assert Run(s1.state, events[1..]).sent == s2.sent;
    if LayoutChanged(q, p) && Remeasure(q, m).Failure? {
      assert !s1.state.mounted;
    } else {
      assert s1.state.mounted && s1.state.props == q && !s1.state.webviewReady;
      assert s2.sent == [RenderFull(q.html, q.editorMode, q.fontSize, q.theme, q.platform)];
    }
  }

  /** Once ready, a prop update that changes only the font size sends the
      render update and then a font-size message without the size. */
  lemma FontSizeChangeLosesTheSize(s: State, q: Props, m: Measure)
    requires s.mounted && s.webviewReady
    requires q == s.props.(fontSize := q.fontSize) && q.fontSize != s.props.fontSize
    ensures Step(s, PropsUpdate(q, m)).sent ==
      [RenderUpdate(q.html, q.editorMode, q.theme), ChangeFontSize(Undefined)]
  {
  }

  /** The link policy on concrete clicks: http and https links in any case
      are opened, anything else is dropped. */
  lemma HttpsLinkOpens(s: State)
    ensures OnWVMessage(s, "did-click-link", Some(["https://x"])).sent == [OpenExternal("https://x")]
  {
    StartsWithIgnoringCaseAt("https://x", "https://");
    ClickOpens(s, Some(["https://x"]));
  }

  lemma UpperCaseHttpLinkOpens(s: State)
    ensures OnWVMessage(s, "did-click-link", Some(["HTTP://x", "y"])).sent == [OpenExternal("HTTP://x")]
  {
    StartsWithIgnoringCaseAt("HTTP://x", "http://");
    ClickOpens(s, Some(["HTTP://x", "y"]));
  }

  /** A click whose first argument is an http(s) link opens that link. */
  lemma ClickOpens(s: State, args: Option<seq<string>>)
    requires args.Some? && |args.value| > 0 && IsExternalLink(args.value[0])
    ensures OnWVMessage(s, "did-click-link", args).sent == [OpenExternal(args.value[0])]
  {
  }

  lemma OtherSchemesDropped(s: State)
    ensures OnWVMessage(s, "did-click-link", Some(["javascript:x"])).sent == []
    ensures OnWVMessage(s, "did-click-link", Some(["/local"])).sent == []
    ensures OnWVMessage(s, "did-click-link", Some([])).sent == []
    ensures OnWVMessage(s, "did-click-link", None).sent == []
  {
    assert "javascript:x"[0] == 'j';
    assert "/local"[0] == '/';
  }
}
