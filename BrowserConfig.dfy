/** utils/browser_config.py: the single-window rule (`enforce_single_tab_mode`,
    its window-handle part), the refusal of headless arguments
    (`validate_no_headless_mode`) and the window geometry checks of
    `ensure_window_visibility`. */
module BrowserConfig {
  import opened Wrappers
  import opened Text
  import opened Driver

  // ---------------------------------------------------------------------------
  // enforce_single_tab_mode

  /** The calls made to close the windows `extra`, one after the other in
      list order: switch to it, then close it. */
  function CloseTrace(extra: seq<Handle>): seq<Event>
  {
    if extra == [] then []
    else CloseTrace(extra[..|extra| - 1]) + [Switched(extra[|extra| - 1]), Closed(extra[|extra| - 1])]
  }

  /** The calls one enforcement makes when the driver lists the windows `hs`
      and the script injection raises iff `!scriptOk`. */
  function EnforceTrace(hs: seq<Handle>, scriptOk: bool): seq<Event>
  {
    if !scriptOk then []
    else [InjectSingleTabScript] + if |hs| > 1 then CloseTrace(hs[1..]) + [Switched(hs[0])] else []
  }

  /** The windows left open by one enforcement. */
  function AfterEnforce(hs: seq<Handle>, scriptOk: bool): seq<Handle>
  {
    if scriptOk && |hs| > 1 then [hs[0]] else hs
  }

  /** The handles of the windows closed in `log`, in the order closed. */
  function ClosedHandles(log: seq<Event>): seq<Handle>
  {
    if log == [] then []
    else (if log[0].Closed? then [log[0].handle] else []) + ClosedHandles(log[1..])
  }

  lemma {:induction false} ClosedHandlesAppend(a: seq<Event>, b: seq<Event>)
    ensures ClosedHandles(a + b) == ClosedHandles(a) + ClosedHandles(b)
    decreases |a|
  {
    if a == [] {
      assert a + b == b;
    } else {
      assert (a + b)[0] == a[0] && (a + b)[1..] == a[1..] + b;
      ClosedHandlesAppend(a[1..], b);
    }
  }

  lemma {:induction false} CloseTraceCloses(extra: seq<Handle>)
    ensures ClosedHandles(CloseTrace(extra)) == extra
    decreases |extra|
  {
    if extra != [] {
      var last := extra[|extra| - 1];
      var front := extra[..|extra| - 1];
      CloseTraceCloses(front);
      ClosedHandlesAppend(CloseTrace(front), [Switched(last), Closed(last)]);
      assert ClosedHandles([Switched(last), Closed(last)]) == [last] by {
        assert [Closed(last)][1..] == [];
        assert ClosedHandles([Closed(last)]) == [last];
        assert [Switched(last), Closed(last)][1..] == [Closed(last)];
      }
      assert front + [last] == extra;
    }
  }

  /** With more than one window, an enforcement closes every window except
      the first, in list order, so it closes exactly `|hs| - 1` of them; with
      one window or none it closes nothing. */
  lemma {:induction false} EnforceClosesAllButFirst(hs: seq<Handle>)
    ensures ClosedHandles(EnforceTrace(hs, true)) == if |hs| > 1 then hs[1..] else []
    ensures |ClosedHandles(EnforceTrace(hs, true))| == if |hs| > 1 then |hs| - 1 else 0
  {
    var t := EnforceTrace(hs, true);
    if |hs| > 1 {
      CloseTraceCloses(hs[1..]);
      ClosedHandlesAppend([InjectSingleTabScript], CloseTrace(hs[1..]) + [Switched(hs[0])]);
      ClosedHandlesAppend(CloseTrace(hs[1..]), [Switched(hs[0])]);
      assert ClosedHandles([InjectSingleTabScript]) == [] by {
        assert [InjectSingleTabScript][1..] == [];
      }
      assert ClosedHandles([Switched(hs[0])]) == [] by {
        assert [Switched(hs[0])][1..] == [];
      }
    } else {
      assert t == [InjectSingleTabScript];
      assert t[1..] == [];
    }
  }

  /** A second enforcement right after a successful one finds one window and
      only re-injects the script: the windows are untouched. */
  lemma EnforceIsIdempotent(hs: seq<Handle>)
    requires hs != []
    ensures AfterEnforce(AfterEnforce(hs, true), true) == AfterEnforce(hs, true) == [hs[0]]
    ensures EnforceTrace(AfterEnforce(hs, true), true) == [InjectSingleTabScript]
  {
  }

  lemma WithoutAt(hs: seq<Handle>, k: nat)
    requires Distinct(hs) && k < |hs|
    ensures Without(hs, hs[k]) == hs[..k] + hs[k + 1..]
  {
    var j := IndexOf(hs, hs[k]);
    assert j == k;
  }

  /** Closing the window `handles[i]`, the second of `[main] + handles[i..]`,
      leaves `[main] + handles[i + 1..]` and extends the close trace by one
      switch and one close. */
  lemma CloseStep(main: Handle, handles: seq<Handle>, i: nat)
    requires 1 <= i < |handles| && Distinct([main] + handles[i..])
    ensures ([main] + handles[i..])[1] == handles[i]
    ensures Without([main] + handles[i..], handles[i]) == [main] + handles[i + 1..]
    ensures CloseTrace(handles[1..i + 1]) == CloseTrace(handles[1..i]) + [Switched(handles[i]), Closed(handles[i])]
  {
    WithoutAt([main] + handles[i..], 1);
    assert ([main] + handles[i..])[2..] == handles[i + 1..];
    assert handles[1..i + 1][..i - 1] == handles[1..i];
  }

  /** enforce_single_tab_mode: inject the single-tab script; then, if the
      driver lists more than one window, switch to and close every window
      but the first, in list order, and switch back to the first. Answers
      false (and touches no window) when the injection raises, true
      otherwise. */
  method EnforceSingleTabMode(d: Browser, scriptOk: bool) returns (ok: bool)
    requires d.Valid()
    modifies d
    ensures d.Valid()
    ensures ok == scriptOk
    ensures d.handles == AfterEnforce(old(d.handles), scriptOk)
    ensures d.current == if scriptOk && |old(d.handles)| > 1 then Some(old(d.handles)[0]) else old(d.current)
    ensures d.log == old(d.log) + EnforceTrace(old(d.handles), scriptOk)
  {
    ok := d.InjectScript(scriptOk);
    if !ok {
      return;
    }
    var handles := d.handles;
    if |handles| > 1 {
      ghost var log1 := d.log;
      CloseExtraWindows(d, handles);
      var back := d.SwitchTo(handles[0]);
      AppendAssoc(log1, CloseTrace(handles[1..]), [Switched(handles[0])]);
    }
  }

  /** The loop of enforce_single_tab_mode over `handles`, the windows the
      driver listed: switch to and close every window but the first, in list
      order. Only the first window is left, and no window is current. */
  method CloseExtraWindows(d: Browser, handles: seq<Handle>)
    requires d.Valid() && d.handles == handles && |handles| > 1
    modifies d
    ensures d.Valid()
    ensures d.handles == [handles[0]] && d.current == None
    ensures d.log == old(d.log) + CloseTrace(handles[1..])
  {
    var main := handles[0];
    ghost var log0 := d.log;
    assert handles[1..1] == [];
    assert handles == [main] + handles[1..];
    for i := 1 to |handles|
      invariant d.Valid()
      invariant d.handles == [main] + handles[i..]
      invariant i > 1 ==> d.current == None
      invariant d.log == log0 + CloseTrace(handles[1..i])
    {
      CloseStep(main, handles, i);
      ghost var logi := d.log;
      var switched := d.SwitchTo(handles[i]);
      var closed := d.Close();
      assert d.log == logi + [Switched(handles[i]), Closed(handles[i])];
      AppendAssoc(log0, CloseTrace(handles[1..i]), [Switched(handles[i]), Closed(handles[i])]);
    }
    assert handles[1..|handles|] == handles[1..];
    assert handles[|handles|..] == [];
  }

  // ---------------------------------------------------------------------------
  // validate_no_headless_mode

  const HeadlessFlag := "--headless"

  /** validate_no_headless_mode: raises ValueError (here: `Failure`) exactly
      when some argument, lower-cased, contains `--headless`; answers true
      otherwise. */
  function ValidateNoHeadlessMode(args: seq<string>): (r: Result<bool, string>)
    ensures r.Failure? <==> exists k :: 0 <= k < |args| && Contains(Lower(args[k]), HeadlessFlag)
    ensures r.Success? ==> r.value
  {
    if args == [] then Success(true)
    else if Contains(Lower(args[0]), HeadlessFlag) then
      Failure("HEADLESS MODE DETECTED! All tests must run with visible browser window")
    else
      var rest := ValidateNoHeadlessMode(args[1..]);
      assert forall k :: 1 <= k < |args| ==> args[k] == args[1..][k - 1];
      rest
  }

  // ---------------------------------------------------------------------------
  // ensure_window_visibility

  datatype WindowCommand = Maximize | Focus | SetPosition(x: int, y: int)

  /** The window commands issued, and the answer given. */
  datatype Visibility = Visibility(commands: seq<WindowCommand>, visible: bool)

  function CountOf(cmds: seq<WindowCommand>, c: WindowCommand): nat
  {
    if cmds == [] then 0 else (if cmds[0] == c then 1 else 0) + CountOf(cmds[1..], c)
  }

  lemma {:induction false} CountOfAppend(a: seq<WindowCommand>, b: seq<WindowCommand>, c: WindowCommand)
    ensures CountOf(a + b, c) == CountOf(a, c) + CountOf(b, c)
    decreases |a|
  {
    if a == [] {
      assert a + b == b;
    } else {
      assert (a + b)[0] == a[0] && (a + b)[1..] == a[1..] + b;
      CountOfAppend(a[1..], b, c);
    }
  }

  lemma CountOfSmall(c: WindowCommand)
    ensures CountOf([], c) == 0
    ensures CountOf([Maximize], c) == if c == Maximize then 1 else 0
    ensures CountOf([Maximize, Focus], c) == if c == Maximize || c == Focus then 1 else 0
    ensures CountOf([SetPosition(0, 0), Maximize], c) == if c == Maximize || c == SetPosition(0, 0) then 1 else 0
  {
    assert [Maximize][1..] == [];
    assert [Maximize, Focus][1..] == [Focus] && [Focus][1..] == [];
    assert [SetPosition(0, 0), Maximize][1..] == [Maximize];
  }

  predicate TooSmall(width: int, height: int) { width < 100 || height < 100 }

  predicate OffScreen(x: int, y: int) { x < -1000 || y < -1000 }

  /** ensure_window_visibility, given what the driver reports: `size` is the
      (width, height) read after the first maximize and `position` the (x, y)
      read after that, `None` where the read raised. */
  function EnsureWindowVisibility(size: Option<(int, int)>, position: Option<(int, int)>): (r: Visibility)
    ensures r.visible <==> size.Some? && position.Some?
    ensures CountOf(r.commands, Focus) == 1
    ensures size.None? ==> CountOf(r.commands, Maximize) == 1
    ensures size.Some? && position.None? ==>
      CountOf(r.commands, Maximize) == 1 + if TooSmall(size.value.0, size.value.1) then 1 else 0
    ensures size.Some? && position.Some? ==>
      CountOf(r.commands, Maximize)
        == 1 + (if TooSmall(size.value.0, size.value.1) then 1 else 0)
             + (if OffScreen(position.value.0, position.value.1) then 1 else 0)
    ensures CountOf(r.commands, SetPosition(0, 0)) == 1
        <==> size.Some? && position.Some? && OffScreen(position.value.0, position.value.1)
    ensures forall c :: c in r.commands ==> c.SetPosition? ==> c == SetPosition(0, 0)
  {
    var start := [Maximize, Focus];
    CountOfSmall(Maximize);
    CountOfSmall(Focus);
    CountOfSmall(SetPosition(0, 0));
    match size
    case None => Visibility(start, false)
    case Some((w, h)) =>
      var grow: seq<WindowCommand> := if TooSmall(w, h) then [Maximize] else [];
      var resized := start + grow;
      CountOfAppend(start, grow, Maximize);
      CountOfAppend(start, grow, Focus);
      CountOfAppend(start, grow, SetPosition(0, 0));
      match position
      case None => Visibility(resized, false)
      case Some((x, y)) =>
        var move: seq<WindowCommand> := if OffScreen(x, y) then [SetPosition(0, 0), Maximize] else [];
        var moved := resized + move;
        CountOfAppend(resized, move, Maximize);
        CountOfAppend(resized, move, Focus);
        CountOfAppend(resized, move, SetPosition(0, 0));
        Visibility(moved, true)
  }
}
