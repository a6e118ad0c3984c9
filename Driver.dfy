/** The part of the Selenium WebDriver that the single-window discipline
    touches: the list of open window handles, the window commands go to, and
    the driver calls carried out so far. Whatever the browser itself decides
    (whether a page load or a script raises, which windows a page opens) is
    passed in by the caller as an oracle. */
module Driver {
  import opened Wrappers

  type Handle = string

  /** A driver call that was carried out, in the order it happened. */
  datatype Event =
    | InjectSingleTabScript      // the `execute_script` of enforce_single_tab_mode
    | Switched(handle: Handle)   // driver.switch_to.window(handle)
    | Closed(handle: Handle)     // driver.close() on the current window
    | Loaded(url: string)        // driver.get(url)
    | ScriptClicked              // driver.execute_script("arguments[0].click();", e)

  predicate Distinct(hs: seq<Handle>) {
    forall i, j :: 0 <= i < j < |hs| ==> hs[i] != hs[j]
  }

  /** Position of `h` in `hs`. */
  function IndexOf(hs: seq<Handle>, h: Handle): (k: nat)
    requires h in hs
    ensures k < |hs| && hs[k] == h
    ensures forall j :: 0 <= j < k ==> hs[j] != h
  {
    if hs[0] == h then 0 else 1 + IndexOf(hs[1..], h)
  }

  /** `hs` with the window `h` closed. */
  function Without(hs: seq<Handle>, h: Handle): (r: seq<Handle>)
    requires h in hs
    ensures |r| == |hs| - 1
  {
    var k := IndexOf(hs, h);
    hs[..k] + hs[k + 1..]
  }

  lemma DistinctAppend(a: seq<Handle>, b: seq<Handle>)
    requires Distinct(a) && Distinct(b)
    requires forall s :: s in b ==> s !in a
    ensures Distinct(a + b)
  {
    forall i, j | 0 <= i < j < |a + b| ensures (a + b)[i] != (a + b)[j] {
      if j < |a| {
        assert (a + b)[i] == a[i] && (a + b)[j] == a[j];
      } else if i < |a| {
        assert (a + b)[i] == a[i] && (a + b)[j] == b[j - |a|];
        assert b[j - |a|] in b;
      } else {
        assert (a + b)[i] == b[i - |a|] && (a + b)[j] == b[j - |a|];
      }
    }
  }

  class Browser {
    /** driver.window_handles, in the order the driver lists them. */
    var handles: seq<Handle>
    /** The window commands go to; `None` once that window was closed. */
    var current: Option<Handle>
    /** The window and navigation calls carried out so far. */
    var log: seq<Event>

    ghost predicate Valid()
      reads this
    {
      Distinct(handles) && (current.Some? ==> current.value in handles)
    }

    /** A session with one window, `h`, focused. */
    constructor (h: Handle)
      ensures Valid()
      ensures handles == [h] && current == Some(h) && log == []
    {
      handles := [h];
      current := Some(h);
      log := [];
    }

    /** driver.switch_to.window(h): raises NoSuchWindowException (here: answers
        false and changes nothing) unless `h` is open. */
    method SwitchTo(h: Handle) returns (ok: bool)
      requires Valid()
      modifies this
      ensures Valid()
      ensures ok == (h in old(handles))
      ensures handles == old(handles)
      ensures current == if ok then Some(h) else old(current)
      ensures log == old(log) + if ok then [Switched(h)] else []
    {
      ok := h in handles;
      if ok {
        current := Some(h);
        log := log + [Switched(h)];
      }
    }

    /** driver.close(): closes the current window, after which no window is
        current; raises (here: answers false) when there is none. */
    method Close() returns (ok: bool)
      requires Valid()
      modifies this
      ensures Valid()
      ensures ok == old(current).Some?
      ensures ok ==> handles == Without(old(handles), old(current).value) && current == None
      ensures ok ==> log == old(log) + [Closed(old(current).value)]
      ensures !ok ==> handles == old(handles) && current == old(current) && log == old(log)
    {
      ok := current.Some?;
      if ok {
        var h := current.value;
        var k := IndexOf(handles, h);
        var rest := handles[..k] + handles[k + 1..];
        forall i, j | 0 <= i < j < |rest| ensures rest[i] != rest[j] {
          var i' := if i < k then i else i + 1;
          var j' := if j < k then j else j + 1;
          assert rest[i] == handles[i'] && rest[j] == handles[j'];
        }
        handles := rest;
        current := None;
        log := log + [Closed(h)];
      }
    }

    /** The `execute_script` that installs the single-tab JavaScript;
        `succeeds` says whether the browser raised. */
    method InjectScript(succeeds: bool) returns (ok: bool)
      requires Valid()
      modifies this
      ensures Valid()
      ensures ok == succeeds
      ensures handles == old(handles) && current == old(current)
      ensures log == old(log) + if ok then [InjectSingleTabScript] else []
    {
      ok := succeeds;
      if ok {
        log := log + [InjectSingleTabScript];
      }
    }

    /** An action that may open windows: driver.get(url) when `url` is given,
        a script click otherwise. `succeeds` says whether it raised; the
        windows it opens are `spawned`, appended to the handle list. */
    method Act(url: Option<string>, succeeds: bool, spawned: seq<Handle>) returns (ok: bool)
      requires Valid()
      requires Distinct(spawned) && forall s :: s in spawned ==> s !in handles
      modifies this
      ensures Valid()
      ensures ok == succeeds
      ensures current == old(current)
      ensures handles == if ok then old(handles) + spawned else old(handles)
      ensures log == old(log) + if !ok then [] else if url.Some? then [Loaded(url.value)] else [ScriptClicked]
    {
      ok := succeeds;
      if ok {
        DistinctAppend(handles, spawned);
        handles := handles + spawned;
        log := log + if url.Some? then [Loaded(url.value)] else [ScriptClicked];
      }
    }
  }
}
