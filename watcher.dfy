/** The firmware-directory watcher's filter: which file names count as
    firmware images, and which file-system notifications are passed on to
    the flasher. The fsnotify watcher itself, its goroutine and its channels
    are not part of this model. */
module Watcher {
  import opened Base

  /** Go's `path.Ext`: the suffix of `p` that starts at the final `.` of its
      final slash-separated element, or "" when that element has no `.`.
      Scanning from the end, a `/` ends the search with "" and a `.` ends it
      with everything from the dot on. */
  function Ext(p: string): string
    decreases |p|
  {
    if |p| == 0 || p[|p| - 1] == '/' then ""
    else if p[|p| - 1] == '.' then "."
    else
      var e := Ext(p[..|p| - 1]);
      if |e| == 0 then "" else e + [p[|p| - 1]]
  }

  /** `s` is a file extension: a dot followed by characters that are neither
      dots nor slashes. */
  predicate IsExtension(s: string)
  {
    |s| >= 1 && s[0] == '.' && forall k :: 1 <= k < |s| ==> s[k] != '.' && s[k] != '/'
  }

  predicate EndsWith(p: string, s: string)
  {
    |s| <= |p| && p[|p| - |s|..] == s
  }

  /** A non-empty `Ext(p)` is an extension that ends `p`. */
  lemma {:induction false} ExtShape(p: string)
    ensures |Ext(p)| > 0 ==> IsExtension(Ext(p)) && EndsWith(p, Ext(p))
    decreases |p|
  {
    if |p| > 0 && p[|p| - 1] != '/' && p[|p| - 1] != '.' {
      var front, c := p[..|p| - 1], p[|p| - 1];
      var e := Ext(front);
      ExtShape(front);
      if |e| > 0 {
        assert p == front + [c];
        assert p[|p| - |e + [c]|..] == front[|front| - |e|..] + [c];
      }
    }
  }

  /** `Ext(p)` is empty only when every `.` in `p` has a `/` after it, that
      is, when the final element of the path has no dot. */
  lemma {:induction false} ExtEmpty(p: string)
    ensures |Ext(p)| == 0 <==> forall i :: 0 <= i < |p| && p[i] == '.' ==> exists j :: i < j < |p| && p[j] == '/'
    decreases |p|
  {
    if |p| > 0 {
      var front, c := p[..|p| - 1], p[|p| - 1];
      ExtEmpty(front);
      if c == '/' {
        forall i | 0 <= i < |p| && p[i] == '.'
          ensures exists j :: i < j < |p| && p[j] == '/'
        {
          assert p[|p| - 1] == '/';
        }
      } else if c == '.' {
        assert p[|p| - 1] == '.';
      } else if |Ext(front)| == 0 {
        forall i | 0 <= i < |p| && p[i] == '.'
          ensures exists j :: i < j < |p| && p[j] == '/'
        {
          assert i < |front| && front[i] == '.';
          var j :| i < j < |front| && front[j] == '/';
          assert p[j] == '/';
        }
      } else {
        var i :| 0 <= i < |front| && front[i] == '.' && !(exists j :: i < j < |front| && front[j] == '/');
        assert p[i] == '.';
        assert !(exists j :: i < j < |p| && p[j] == '/') by {
          forall j | i < j < |p|
            ensures p[j] != '/'
          {
            if j < |front| {
              assert p[j] == front[j];
            }
          }
        }
      }
    }
  }

  /** Whatever comes before it, a path ending in an extension has that
      extension. */
  lemma {:induction false} ExtOfSuffix(q: string, s: string)
    requires IsExtension(s)
    ensures Ext(q + s) == s
    decreases |s|
  {
    var p := q + s;
    assert p[|p| - 1] == s[|s| - 1];
    if |s| > 1 {
      var s' := s[..|s| - 1];
      assert IsExtension(s') by {
        assert forall k :: 1 <= k < |s'| ==> s'[k] == s[k];
      }
      assert p[..|p| - 1] == q + s';
      ExtOfSuffix(q, s');
      assert s == s' + [s[|s| - 1]];
    }
  }

  /** `isFirmwareFile`: the path's extension is exactly ".hex" or ".bin". */
  predicate IsFirmwareFile(p: string)
  {
    Ext(p) == ".hex" || Ext(p) == ".bin"
  }

  /** A path is a firmware file exactly when it ends in ".hex" or ".bin":
      only the last extension counts and the comparison is case-sensitive. */
  lemma {:induction false} FirmwareFileIff(p: string)
    ensures IsFirmwareFile(p) <==> EndsWith(p, ".hex") || EndsWith(p, ".bin")
  {
    ExtShape(p);
    if EndsWith(p, ".hex") {
      assert p == p[..|p| - 4] + ".hex";
      ExtOfSuffix(p[..|p| - 4], ".hex");
    } else if EndsWith(p, ".bin") {
      assert p == p[..|p| - 4] + ".bin";
      ExtOfSuffix(p[..|p| - 4], ".bin");
    }
  }

  /** The filter on sample names: upper-case extensions, a trailing second
      extension and a dot only in a directory are all rejected; a name whose
      last extension is ".bin" is accepted whatever precedes it. */
  lemma {:induction false} FirmwareFileExamples()
    ensures IsFirmwareFile("build/fw.hex") && IsFirmwareFile("fw.tmp.bin")
    ensures !IsFirmwareFile("fw.BIN") && !IsFirmwareFile("fw.Hex")
    ensures !IsFirmwareFile("fw.hex.tmp") && !IsFirmwareFile("firmware")
    ensures !IsFirmwareFile("out.bin/readme")
  {
    FirmwareFileIff("build/fw.hex");
    FirmwareFileIff("fw.tmp.bin");
    FirmwareFileIff("fw.BIN");
    FirmwareFileIff("fw.Hex");
    FirmwareFileIff("fw.hex.tmp");
    FirmwareFileIff("firmware");
    FirmwareFileIff("out.bin/readme");
  }

  /** The kinds of change fsnotify reports; one notification may carry
      several. */
  datatype Op = Create | Modify | Delete | Rename | Attrib

  /** An fsnotify notification: the file it is about and what happened. */
  datatype FsEvent = FsEvent(name: string, ops: set<Op>)

  /** `FirmwareWatchEvent`: the name of a firmware file that changed. */
  datatype WatchEvent = WatchEvent(name: string)

  /** The test inside `watch`: the file is a firmware file and it was
      modified or created. */
  predicate Relevant(e: FsEvent)
  {
    IsFirmwareFile(e.name) && (Modify in e.ops || Create in e.ops)
  }

  /** What `watch` sends on its event channel for one notification. */
  function Forward(e: FsEvent): Option<WatchEvent>
  {
    if Relevant(e) then Some(WatchEvent(e.name)) else None
  }

  /** A notification is passed on exactly when it is a create or a modify of
      a name ending in ".hex" or ".bin", and it is passed on under the same
      name. */
  lemma {:induction false} ForwardIff(e: FsEvent)
    ensures Forward(e).Some? <==>
      (Create in e.ops || Modify in e.ops) && (EndsWith(e.name, ".hex") || EndsWith(e.name, ".bin"))
    ensures Forward(e).Some? ==> Forward(e).value.name == e.name
  {
    FirmwareFileIff(e.name);
  }

  /** The events `watch` sends for a stream of notifications, in order. */
  function Forwarded(events: seq<FsEvent>): seq<WatchEvent>
    decreases |events|
  {
    if |events| == 0 then []
    else
      var rest := Forwarded(events[..|events| - 1]);
      match Forward(events[|events| - 1])
      case Some(w) => rest + [w]
      case None => rest
  }

  /** Forwarding works notification by notification: the events sent for two
      consecutive stretches of notifications are those of the first followed
      by those of the second. */
  lemma {:induction false} ForwardedAppend(a: seq<FsEvent>, b: seq<FsEvent>)
    ensures Forwarded(a + b) == Forwarded(a) + Forwarded(b)
    decreases |b|
  {
    if |b| == 0 {
      assert a + b == a;
    } else {
      var b' := b[..|b| - 1];
      assert (a + b)[..|a + b| - 1] == a + b';
      assert (a + b)[|a + b| - 1] == b[|b| - 1];
      ForwardedAppend(a, b');
    }
  }

  /** At most one event is sent per notification, and a name is sent exactly
      when some relevant notification carries it. */
  lemma {:induction false} ForwardedNames(events: seq<FsEvent>)
    ensures |Forwarded(events)| <= |events|
    ensures forall n :: WatchEvent(n) in Forwarded(events) <==> exists e :: e in events && Relevant(e) && e.name == n
    decreases |events|
  {
    if |events| > 0 {
      var front, last := events[..|events| - 1], events[|events| - 1];
      assert events == front + [last];
      ForwardedNames(front);
      forall n
        ensures WatchEvent(n) in Forwarded(events) <==> exists e :: e in events && Relevant(e) && e.name == n
      {
        if exists e :: e in events && Relevant(e) && e.name == n {
          var e :| e in events && Relevant(e) && e.name == n;
          if e != last {
            assert e in front;
          }
        }
      }
    }
  }
}
