/**
 * A request multiplexer that dispatches on regular expressions over the
 * request path. Only the two patterns the program registers are modelled,
 * by hand-written matchers that are proved equal to the regular-expression
 * semantics of `/v1/courses/([^/]+)$` and `/v1/courses/([^/]+)/([^/]+)$`.
 */
module RegexpMux {
  import opened Wrappers

  /** apiRoot + "/courses/": the literal text both patterns begin with. */
  const CoursesPrefix: string := "/v1/courses/"

  // ---------------------------------------------------------------------
  // The two patterns

  predicate NoSlash(s: string) {
    forall i :: 0 <= i < |s| ==> s[i] != '/'
  }

  /** What `[^/]+` matches: a non-empty run of characters other than '/'. */
  predicate Segment(s: string) {
    s != [] && NoSlash(s)
  }

  predicate EndsWith(s: string, suffix: string) {
    |suffix| <= |s| && s[|s| - |suffix|..] == suffix
  }

  /**
   * Regular-expression semantics of apiSpecificCourse: MatchString looks for
   * a match starting anywhere in the path, and `$` pins its end to the end
   * of the path.
   */
  ghost predicate CourseMatchAt(path: string, p: nat) {
    p + |CoursesPrefix| <= |path|
    && path[p..p + |CoursesPrefix|] == CoursesPrefix
    && Segment(path[p + |CoursesPrefix|..])
  }

  ghost predicate CoursePatternMatches(path: string) {
    exists p: nat :: CourseMatchAt(path, p)
  }

  /** The same for apiSpecificCourseRelation; q is the position of the '/' between the two groups. */
  ghost predicate RelationMatchAt(path: string, p: nat, q: nat) {
    p + |CoursesPrefix| < q < |path|
    && path[p..p + |CoursesPrefix|] == CoursesPrefix
    && Segment(path[p + |CoursesPrefix|..q])
    && path[q] == '/'
    && Segment(path[q + 1..])
  }

  ghost predicate RelationPatternMatches(path: string) {
    exists p: nat, q: nat :: RelationMatchAt(path, p, q)
  }

  /** The index of the last '/' in s, or -1 when there is none. */
  function LastSlash(s: string): (r: int)
    ensures -1 <= r < |s|
    ensures r >= 0 ==> s[r] == '/'
    ensures forall i :: r < i < |s| ==> s[i] != '/'
    decreases |s|
  {
    if s == [] then -1
    else if s[|s| - 1] == '/' then |s| - 1
    else LastSlash(s[..|s| - 1])
  }

  /** The suffix after position k is slash-free exactly when no position after k holds a '/'. */
  lemma NoSlashTail(s: string, k: int)
    requires -1 <= k < |s|
    ensures NoSlash(s[k + 1..]) <==> forall i :: k < i < |s| ==> s[i] != '/'
  {
    forall i | k < i < |s| ensures s[k + 1..][i - k - 1] == s[i] {
    }
  }

  /** A '/' with none after it is the last one. */
  lemma LastSlashUnique(s: string, k: int)
    requires -1 <= k < |s|
    requires k >= 0 ==> s[k] == '/'
    requires forall i :: k < i < |s| ==> s[i] != '/'
    ensures LastSlash(s) == k
  {
  }

  /** The '/' ending `pre` is the last one of pre + tail when tail has none. */
  lemma LastSlashAt(s: string, pre: string, tail: string)
    requires s == pre + tail && pre != [] && pre[|pre| - 1] == '/' && NoSlash(tail)
    ensures LastSlash(s) == |pre| - 1
    ensures s[..|pre|] == pre && s[|pre|..] == tail
  {
    var k := |pre| - 1;
    forall i | k < i < |s| ensures s[i] != '/' {
      assert s[i] == tail[i - |pre|];
    }
    LastSlashUnique(s, k);
  }

  /** FindStringSubmatch on apiSpecificCourse: group 1, or None when the path does not match. */
  function CourseCapture(path: string): (r: Option<string>)
    ensures r.Some? ==> Segment(r.value)
  {
    var j := LastSlash(path);
    NoSlashTail(path, j);
    if j + 1 < |path| && EndsWith(path[..j + 1], CoursesPrefix) then Some(path[j + 1..])
    else None
  }

  /** FindStringSubmatch on apiSpecificCourseRelation: groups 1 and 2, or None. */
  function RelationCapture(path: string): (r: Option<(string, string)>)
    ensures r.Some? ==> Segment(r.value.0) && Segment(r.value.1)
  {
    var j := LastSlash(path);
    NoSlashTail(path, j);
    if 0 <= j && j + 1 < |path| then
      var head := path[..j];
      var i := LastSlash(head);
      NoSlashTail(head, i);
      if i + 1 < j && EndsWith(head[..i + 1], CoursesPrefix) then Some((head[i + 1..], path[j + 1..]))
      else None
    else None
  }

  lemma CaptureEndsPath(path: string)
    requires CourseCapture(path).Some?
    ensures EndsWith(path, CoursesPrefix + CourseCapture(path).value)
  {
    var n := |CoursesPrefix|;
    var j := LastSlash(path);
    var s := path[j + 1..];
    var x := path[..j + 1 - n];
    assert path[..j + 1] == x + CoursesPrefix;
    assert path == path[..j + 1] + s;
    assert path == x + (CoursesPrefix + s);
  }

  /** What the course matcher captures is a segment ending the path after /v1/courses/. */
  lemma CourseCaptureSound(path: string)
    requires CourseCapture(path).Some?
    ensures Segment(CourseCapture(path).value)
    ensures EndsWith(path, CoursesPrefix + CourseCapture(path).value)
  {
    CaptureEndsPath(path);
  }

  /** A path ending in /v1/courses/S is matched, with group S. */
  lemma CourseCaptureComplete(path: string, s: string)
    requires Segment(s) && EndsWith(path, CoursesPrefix + s)
    ensures CourseCapture(path) == Some(s)
  {
    var n := |CoursesPrefix|;
    var x := path[..|path| - n - |s|];
    assert path == x + CoursesPrefix + s by {
      assert path == x + path[|path| - n - |s|..];
    }
    var k := |x| + n - 1;
    assert path[k] == '/' by {
      assert path[k] == CoursesPrefix[n - 1];
    }
    assert path[k + 1..] == s;
    NoSlashTail(path, k);
    LastSlashUnique(path, k);
    assert path[..k + 1] == x + CoursesPrefix;
  }

  /** The course pattern matches exactly the paths ending in /v1/courses/S, and group 1 is S. */
  lemma CourseCaptureCorrect(path: string, s: string)
    ensures CourseCapture(path) == Some(s) <==> Segment(s) && EndsWith(path, CoursesPrefix + s)
  {
    if CourseCapture(path) == Some(s) {
      CourseCaptureSound(path);
    }
    if Segment(s) && EndsWith(path, CoursesPrefix + s) {
      CourseCaptureComplete(path, s);
    }
  }

  /** A suffix pre + s, read off at its start position. */
  lemma EndsWithSplit(path: string, pre: string, s: string)
    requires EndsWith(path, pre + s)
    ensures path[|path| - |pre + s|..|path| - |s|] == pre
    ensures path[|path| - |s|..] == s
  {
    var t := path[|path| - |pre + s|..];
    assert path[|path| - |pre + s|..|path| - |s|] == t[..|pre|];
    assert path[|path| - |s|..] == t[|pre|..];
  }

  /** Text that matches pre at position p is a suffix pre + (the rest of the path). */
  lemma SplitEndsWith(path: string, pre: string, p: nat)
    requires p + |pre| <= |path| && path[p..p + |pre|] == pre
    ensures EndsWith(path, pre + path[p + |pre|..])
  {
    assert path[p..] == path[p..p + |pre|] + path[p + |pre|..];
  }

  lemma CaptureGivesMatch(path: string)
    requires CourseCapture(path).Some?
    ensures CourseMatchAt(path, |path| - |CoursesPrefix| - |CourseCapture(path).value|)
  {
    CourseCaptureSound(path);
    EndsWithSplit(path, CoursesPrefix, CourseCapture(path).value);
  }

  lemma MatchGivesCapture(path: string, p: nat)
    requires CourseMatchAt(path, p)
    ensures CourseCapture(path).Some?
  {
    SplitEndsWith(path, CoursesPrefix, p);
    CourseCaptureComplete(path, path[p + |CoursesPrefix|..]);
  }

  /** The hand-written matcher agrees with the regular-expression semantics. */
  lemma CourseCaptureIsMatch(path: string)
    ensures CourseCapture(path).Some? <==> CoursePatternMatches(path)
  {
    if CourseCapture(path).Some? {
      CaptureGivesMatch(path);
    }
    if CoursePatternMatches(path) {
      var p: nat :| CourseMatchAt(path, p);
      MatchGivesCapture(path, p);
    }
  }

  /** A path cut at positions k <= i < j, with a '/' at j, is the concatenation of its pieces. */
  lemma Reassemble(path: string, k: nat, i: nat, j: nat)
    requires k <= i < j < |path| && path[j] == '/'
    ensures path == path[..k] + (path[k..i + 1] + path[i + 1..j] + "/" + path[j + 1..])
  {
    assert path == path[..j] + [path[j]] + path[j + 1..];
    assert path[..j] == path[..k] + path[k..i + 1] + path[i + 1..j];
  }

  lemma RelationCaptureEndsPath(path: string)
    requires RelationCapture(path).Some?
    ensures EndsWith(path, CoursesPrefix + RelationCapture(path).value.0 + "/" + RelationCapture(path).value.1)
  {
    var n := |CoursesPrefix|;
    var j := LastSlash(path);
    var head := path[..j];
    var i := LastSlash(head);
    Reassemble(path, i + 1 - n, i, j);
    assert path[i + 1 - n..i + 1] == head[..i + 1][i + 1 - n..];
    assert path[i + 1..j] == head[i + 1..];
  }

  /** What the relation matcher captures are two segments ending the path after /v1/courses/. */
  lemma RelationCaptureSound(path: string)
    requires RelationCapture(path).Some?
    ensures Segment(RelationCapture(path).value.0) && Segment(RelationCapture(path).value.1)
    ensures EndsWith(path, CoursesPrefix + RelationCapture(path).value.0 + "/" + RelationCapture(path).value.1)
  {
    RelationCaptureEndsPath(path);
  }

  /** A path ending in /v1/courses/A/B is matched, with groups A and B. */
  lemma RelationCaptureComplete(path: string, a: string, b: string)
    requires Segment(a) && Segment(b) && EndsWith(path, CoursesPrefix + a + "/" + b)
    ensures RelationCapture(path) == Some((a, b))
  {
    var n := |CoursesPrefix|;
    var t := CoursesPrefix + a + "/" + b;
    var x := path[..|path| - |t|];
    var dir := x + CoursesPrefix;
    assert dir[|dir| - 1] == '/' by {
      assert dir[|dir| - 1] == CoursesPrefix[n - 1];
    }
    var pre := dir + a + "/";
    assert path == pre + b by {
      assert path == x + path[|path| - |t|..];
    }
    LastSlashAt(path, pre, b);
    var head := path[..|pre| - 1];
    assert head == dir + a;
    LastSlashAt(head, dir, a);
    assert EndsWith(head[..|dir|], CoursesPrefix) by {
      assert head[..|dir|] == dir;
    }
  }

  /** The relation pattern matches exactly the paths ending in /v1/courses/A/B; the groups are A and B. */
  lemma RelationCaptureCorrect(path: string, a: string, b: string)
    ensures RelationCapture(path) == Some((a, b)) <==>
      Segment(a) && Segment(b) && EndsWith(path, CoursesPrefix + a + "/" + b)
  {
    if RelationCapture(path) == Some((a, b)) {
      RelationCaptureSound(path);
    }
    if Segment(a) && Segment(b) && EndsWith(path, CoursesPrefix + a + "/" + b) {
      RelationCaptureComplete(path, a, b);
    }
  }

  lemma RelationCaptureGivesMatch(path: string)
    requires RelationCapture(path).Some?
    ensures var (a, b) := RelationCapture(path).value;
      var p := |path| - |CoursesPrefix + a + "/" + b|;
      RelationMatchAt(path, p, p + |CoursesPrefix| + |a|)
  {
    var n := |CoursesPrefix|;
    RelationCaptureSound(path);
    var (a, b) := RelationCapture(path).value;
    var p := |path| - |CoursesPrefix + a + "/" + b|;
    var q := p + n + |a|;
    var t := path[p..];
    assert t == CoursesPrefix + a + "/" + b;
    assert path[p..p + n] == t[..n];
    assert path[p + n..q] == t[n..n + |a|];
    assert path[q] == t[n + |a|];
    assert path[q + 1..] == t[n + |a| + 1..];
  }

  lemma RelationMatchGivesCapture(path: string, p: nat, q: nat)
    requires RelationMatchAt(path, p, q)
    ensures RelationCapture(path).Some?
  {
    var n := |CoursesPrefix|;
    var a, b := path[p + n..q], path[q + 1..];
    assert path[p..] == path[p..p + n] + a + [path[q]] + b;
    RelationCaptureComplete(path, a, b);
  }

  /** The hand-written matcher agrees with the regular-expression semantics. */
  lemma RelationCaptureIsMatch(path: string)
    ensures RelationCapture(path).Some? <==> RelationPatternMatches(path)
  {
    if RelationCapture(path).Some? {
      RelationCaptureGivesMatch(path);
    }
    if RelationPatternMatches(path) {
      var p: nat, q: nat :| RelationMatchAt(path, p, q);
      RelationMatchGivesCapture(path, p, q);
    }
  }

  /** The characters of an occurrence of /v1/courses/ at position p. */
  lemma CoursesPrefixAt(path: string, p: nat)
    requires p + |CoursesPrefix| <= |path| && path[p..p + |CoursesPrefix|] == CoursesPrefix
    ensures path[p] == '/' && path[p + 3] == '/' && path[p + 4..p + 11] == "courses" && path[p + 11] == '/'
  {
    var t := path[p..p + |CoursesPrefix|];
    assert t == "/v1/courses/";
    assert path[p] == t[0] && path[p + 3] == t[3] && path[p + 11] == t[11];
    assert path[p + 4..p + 11] == t[4..11] by {
      forall k | 0 <= k < 7 ensures path[p + 4..p + 11][k] == t[4..11][k] {
        assert path[p + 4..p + 11][k] == path[p + 4 + k] == t[4 + k];
      }
    }
    assert t[4..11] == "courses" by {
      assert t == "/v1/" + "courses" + "/";
    }
  }

  /** Before /v1/courses/ the last '/' is the one after "v1", and what ends there is not /v1/courses/. */
  lemma CoursesDirHead(path: string, j: nat)
    requires |CoursesPrefix| <= j + 1 <= |path| && path[j + 1 - |CoursesPrefix|..j + 1] == CoursesPrefix
    ensures LastSlash(path[..j]) == j - 8
    ensures !EndsWith(path[..j][..j - 7], CoursesPrefix)
  {
    var n := |CoursesPrefix|;
    CoursesPrefixAt(path, j + 1 - n);
    var w := path[..j - 7];
    var head := path[..j];
    assert head == w + "courses" by {
      assert head == w + path[j - 7..j];
    }
    assert NoSlash("courses");
    LastSlashAt(head, w, "courses");
    assert !EndsWith(w, CoursesPrefix) by {
      if n <= |w| {
        assert w[|w| - n..][n - 4] == w[|w| - 4] == path[j - 11];
      }
    }
  }

  /** No path matches both patterns, so main's mux never calls two handlers for one request. */
  lemma PatternsDisjoint(path: string)
    ensures CourseCapture(path).Some? ==> RelationCapture(path).None?
  {
    if CourseCapture(path).Some? {
      var j := LastSlash(path);
      assert path[j + 1 - |CoursesPrefix|..j + 1] == CoursesPrefix by {
        assert path[j + 1 - |CoursesPrefix|..j + 1] == path[..j + 1][j + 1 - |CoursesPrefix|..];
      }
      CoursesDirHead(path, j);
    }
  }

  // ---------------------------------------------------------------------
  // Handlers and the mux

  /** The two patterns main registers. */
  datatype Pattern = ApiSpecificCourse | ApiSpecificCourseRelation

  /** entry.pattern.MatchString(path). */
  predicate Matches(p: Pattern, path: string)
    ensures p == ApiSpecificCourse ==> (Matches(p, path) <==> CoursePatternMatches(path))
    ensures p == ApiSpecificCourseRelation ==> (Matches(p, path) <==> RelationPatternMatches(path))
  {
    match p
    case ApiSpecificCourse => CourseCaptureIsMatch(path); CourseCapture(path).Some?
    case ApiSpecificCourseRelation => RelationCaptureIsMatch(path); RelationCapture(path).Some?
  }

  /** The handler functions of the program. */
  datatype HandlerFunc = SpecificCourseHandler | SpecificCourseRelationHandler

  /** An http.Handler: one of the program's functions, or some other handler the model does not look into. */
  datatype Handler = Func(f: HandlerFunc) | Other(name: string)

  datatype Entry = Entry(pattern: Pattern, handler: Handler)

  /** The error reply http.Error writes: the status and the message followed by a newline. */
  datatype HttpError = HttpError(status: nat, body: string)

  const NotFound: HttpError := HttpError(404, "not found\n")

  /**
   * What a handler function writes: the message built from its own
   * pattern's groups, or None where the groups are missing and indexing
   * the nil match slice panics.
   */
  function Reply(f: HandlerFunc, path: string): (r: Option<string>)
    ensures r.Some? <==> Matches(OwnPattern(f), path)
  {
    match f
    case SpecificCourseHandler =>
      (match CourseCapture(path)
       case Some(s) => Some("you asked for course " + s)
       case None => None)
    case SpecificCourseRelationHandler =>
      (match RelationCapture(path)
       case Some((a, b)) => Some("you asked for the " + b + " of course " + a)
       case None => None)
  }

  /** The pattern a handler function extracts its groups with. */
  function OwnPattern(f: HandlerFunc): Pattern {
    match f
    case SpecificCourseHandler => ApiSpecificCourse
    case SpecificCourseRelationHandler => ApiSpecificCourseRelation
  }

  /** The course handler's message for /.../v1/courses/S. */
  lemma CourseReply(path: string, s: string)
    requires Segment(s) && EndsWith(path, CoursesPrefix + s)
    ensures Reply(SpecificCourseHandler, path) == Some("you asked for course " + s)
  {
    CourseCaptureCorrect(path, s);
  }

  /** The relation handler's message for /.../v1/courses/A/B names B first, then A. */
  lemma RelationReply(path: string, a: string, b: string)
    requires Segment(a) && Segment(b) && EndsWith(path, CoursesPrefix + a + "/" + b)
    ensures Reply(SpecificCourseRelationHandler, path) == Some("you asked for the " + b + " of course " + a)
  {
    RelationCaptureCorrect(path, a, b);
  }

  /**
   * The handlers of the entries whose pattern matches the path, in
   * registration order: the ones the dispatch loop reaches a call of when
   * no handler panics.
   */
  function MatchingHandlers(entries: seq<Entry>, path: string): seq<Handler> {
    if entries == [] then []
    else
      var init, e := entries[..|entries| - 1], entries[|entries| - 1];
      MatchingHandlers(init, path) + (if Matches(e.pattern, path) then [e.handler] else [])
  }

  /** Dispatching over a concatenation of registrations concatenates the dispatches. */
  lemma {:induction false} MatchingHandlersAppend(a: seq<Entry>, b: seq<Entry>, path: string)
    ensures MatchingHandlers(a + b, path) == MatchingHandlers(a, path) + MatchingHandlers(b, path)
    decreases |b|
  {
    if b == [] {
      assert a + b == a;
    } else {
      MatchingHandlersAppend(a, b[..|b| - 1], path);
      assert (a + b)[..|a + b| - 1] == a + b[..|b| - 1];
    }
  }

  /** Every matching entry contributes its handler, and only matching entries do. */
  lemma {:induction false} MatchingHandlersMembers(entries: seq<Entry>, path: string, h: Handler)
    ensures h in MatchingHandlers(entries, path) <==>
      exists i :: 0 <= i < |entries| && entries[i].handler == h && Matches(entries[i].pattern, path)
  {
    if entries != [] {
      var init := entries[..|entries| - 1];
      MatchingHandlersMembers(init, path, h);
      assert forall i :: 0 <= i < |init| ==> init[i] == entries[i];
      if h in MatchingHandlers(entries, path) && h !in MatchingHandlers(init, path) {
        assert entries[|entries| - 1].handler == h;
      }
    }
  }

  /** No handler is called exactly when no entry's pattern matches. */
  lemma {:induction false} MatchingHandlersNone(entries: seq<Entry>, path: string)
    ensures MatchingHandlers(entries, path) == [] <==>
      forall i :: 0 <= i < |entries| ==> !Matches(entries[i].pattern, path)
  {
    if entries != [] {
      var init := entries[..|entries| - 1];
      MatchingHandlersNone(init, path);
      assert forall i :: 0 <= i < |init| ==> init[i] == entries[i];
    }
  }

  /** A handler call that panics: a handler function whose own pattern's groups are missing. */
  predicate Panics(h: Handler, path: string) {
    h.Func? && Reply(h.f, path).None?
  }

  /**
   * The handlers actually run when `handlers` are called in turn: all of
   * them up to and including the first that panics, because the panic
   * unwinds out of the dispatch loop.
   */
  function Dispatched(handlers: seq<Handler>, path: string): (r: seq<Handler>)
    ensures |r| <= |handlers| && r == handlers[..|r|]
    ensures forall i :: 0 <= i < |r| - 1 ==> !Panics(r[i], path)
    ensures |r| < |handlers| ==> |r| > 0 && Panics(r[|r| - 1], path)
  {
    if handlers == [] then []
    else if Panics(handlers[0], path) then [handlers[0]]
    else
      var t := Dispatched(handlers[1..], path);
      DispatchedCons(handlers, t);
      [handlers[0]] + t
  }

  /** Putting back the head of `handlers` in front of a prefix of its tail gives a prefix of `handlers`. */
  lemma DispatchedCons(handlers: seq<Handler>, t: seq<Handler>)
    requires |handlers| > 0 && |t| <= |handlers| - 1 && t == handlers[1..][..|t|]
    ensures [handlers[0]] + t == handlers[..|t| + 1]
  {
    assert forall i :: 0 <= i < |t| ==> t[i] == handlers[i + 1];
  }

  /** When no handler panics, every one of them runs. */
  lemma DispatchedAll(handlers: seq<Handler>, path: string)
    requires forall i :: 0 <= i < |handlers| ==> !Panics(handlers[i], path)
    ensures Dispatched(handlers, path) == handlers
  {
  }

  /** The first handler that panics is the last one to run; the later ones never do. */
  lemma {:induction false} DispatchedFirstPanic(pre: seq<Handler>, h: Handler, rest: seq<Handler>, path: string)
    requires forall i :: 0 <= i < |pre| ==> !Panics(pre[i], path)
    requires Panics(h, path)
    ensures Dispatched(pre + [h] + rest, path) == pre + [h]
  {
    if pre == [] {
      assert ([] + [h] + rest)[0] == h;
    } else {
      var hs := pre + [h] + rest;
      assert hs[0] == pre[0];
      assert hs[1..] == pre[1..] + [h] + rest;
      DispatchedFirstPanic(pre[1..], h, rest, path);
      assert [pre[0]] + (pre[1..] + [h]) == pre + [h];
    }
  }

  /** The loop reaching a matching handler that panics has run all it will run. */
  lemma PanicEndsDispatch(entries: seq<Entry>, i: nat, path: string)
    requires i < |entries| && Matches(entries[i].pattern, path) && Panics(entries[i].handler, path)
    requires forall k :: 0 <= k < |MatchingHandlers(entries[..i], path)| ==> !Panics(MatchingHandlers(entries[..i], path)[k], path)
    ensures Dispatched(MatchingHandlers(entries, path), path) == MatchingHandlers(entries[..i], path) + [entries[i].handler]
  {
    var pre, h := MatchingHandlers(entries[..i], path), entries[i].handler;
    assert entries[..i + 1][..i] == entries[..i];
    assert MatchingHandlers(entries[..i + 1], path) == pre + [h];
    assert entries == entries[..i + 1] + entries[i + 1..];
    MatchingHandlersAppend(entries[..i + 1], entries[i + 1..], path);
    DispatchedFirstPanic(pre, h, MatchingHandlers(entries[i + 1..], path), path);
  }

  class RegExpMux {
    var entries: seq<Entry>

    /** NewRegExpMux: no entries. */
    constructor ()
      ensures entries == []
    {
      entries := [];
    }

    /** Appends one entry; the earlier ones are unchanged. */
    method Handle(pattern: Pattern, handler: Handler)
      modifies this
      ensures entries == old(entries) + [Entry(pattern, handler)]
    {
      entries := entries + [Entry(pattern, handler)];
    }

    /** The same as Handle with the function wrapped as a handler. */
    method HandleFunc(pattern: Pattern, f: HandlerFunc)
      modifies this
      ensures entries == old(entries) + [Entry(pattern, Func(f))]
    {
      Handle(pattern, Func(f));
    }

    /**
     * Calls the handler of every entry whose pattern matches, in
     * registration order, until one of them panics. The 404 error is
     * written only when no entry matched; after a panic nothing more is
     * written.
     */
    method ServeHTTP(path: string) returns (invoked: seq<Handler>, error: Option<HttpError>, panicked: bool)
      ensures invoked == Dispatched(MatchingHandlers(entries, path), path)
      ensures panicked <==> exists i :: 0 <= i < |invoked| && Panics(invoked[i], path)
      ensures !panicked ==> invoked == MatchingHandlers(entries, path)
      ensures panicked ==> error == None
      ensures !panicked ==> (error.None? <==> exists i :: 0 <= i < |entries| && Matches(entries[i].pattern, path))
      ensures error.Some? ==> error.value == NotFound
    {
      var handled := false;
      invoked := [];
      panicked := false;
      var i := 0;
      while i < |entries|
        invariant 0 <= i <= |entries|
        invariant !panicked
        invariant invoked == MatchingHandlers(entries[..i], path)
        invariant forall k :: 0 <= k < |invoked| ==> !Panics(invoked[k], path)
        invariant handled <==> exists k :: 0 <= k < i && Matches(entries[k].pattern, path)
      {
        var entry := entries[i];
        assert entries[..i + 1][..i] == entries[..i];
        if Matches(entry.pattern, path) {
          if Panics(entry.handler, path) {
            PanicEndsDispatch(entries, i, path);
            invoked := invoked + [entry.handler];
            panicked := true;
            error := None;
            assert invoked[|invoked| - 1] == entry.handler;
            return;
          }
          invoked := invoked + [entry.handler];
          handled := true;
        }
        i := i + 1;
      }
      assert entries[..|entries|] == entries;
      DispatchedAll(invoked, path);
      error := if handled then None else Some(NotFound);
    }
  }

  /**
   * main's server: the course handler and then the relation handler are
   * registered, and a request is dispatched; at most one handler runs and
   * it does not panic.
   */
  method ServeMain(path: string) returns (invoked: seq<Handler>, error: Option<HttpError>, panicked: bool)
    ensures CoursePatternMatches(path) ==> invoked == [Func(SpecificCourseHandler)] && error == None
    ensures RelationPatternMatches(path) ==> invoked == [Func(SpecificCourseRelationHandler)] && error == None
    ensures !CoursePatternMatches(path) && !RelationPatternMatches(path) ==> invoked == [] && error == Some(NotFound)
    ensures forall h :: h in invoked ==> h.Func? && Reply(h.f, path).Some?
    ensures !panicked
  {
    var mux := new RegExpMux();
    mux.HandleFunc(ApiSpecificCourse, SpecificCourseHandler);
    mux.HandleFunc(ApiSpecificCourseRelation, SpecificCourseRelationHandler);
    var entries := mux.entries;
    assert entries == [Entry(ApiSpecificCourse, Func(SpecificCourseHandler))]
      + [Entry(ApiSpecificCourseRelation, Func(SpecificCourseRelationHandler))];
    invoked, error, panicked := mux.ServeHTTP(path);
    CourseCaptureIsMatch(path);
    RelationCaptureIsMatch(path);
    PatternsDisjoint(path);
    MatchingHandlersAppend([entries[0]], [entries[1]], path);
    assert MatchingHandlers([entries[0]], path) == MatchingHandlers([], path) + MatchingHandlers([entries[0]], path)[0..];
  }

  /** "/v1/courses/1" matches the course pattern, and the relation handler panics on it. */
  lemma CoursePathPanicsRelation(path: string)
    requires path == "/v1/courses/1"
    ensures Matches(ApiSpecificCourse, path)
    ensures Panics(Func(SpecificCourseRelationHandler), path)
  {
    CourseCaptureCorrect(path, "1");
    LastSlashAt(path, "/v1/courses/", "1");
    LastSlashAt("/v1/courses", "/v1/", "courses");
  }

  /** The entries of the scenario below: a relation handler behind the course pattern, then another handler. */
  const MisroutedEntries: seq<Entry> :=
    [Entry(ApiSpecificCourse, Func(SpecificCourseRelationHandler)), Entry(ApiSpecificCourse, Other("x"))]

  /** On "/v1/courses/1" both entries match, and the dispatch ends at the first, which panics. */
  lemma MisroutedDispatch(path: string)
    requires path == "/v1/courses/1"
    ensures MatchingHandlers(MisroutedEntries, path) == [Func(SpecificCourseRelationHandler), Other("x")]
    ensures Dispatched(MatchingHandlers(MisroutedEntries, path), path) == [Func(SpecificCourseRelationHandler)]
  {
    var entries := MisroutedEntries;
    CoursePathPanicsRelation(path);
    MatchingHandlersAppend([entries[0]], [entries[1]], path);
    assert entries == [entries[0]] + [entries[1]];
    assert MatchingHandlers([entries[0]], path) == MatchingHandlers([], path) + [entries[0].handler];
    assert MatchingHandlers([entries[1]], path) == MatchingHandlers([], path) + [entries[1].handler];
    DispatchedFirstPanic([], Func(SpecificCourseRelationHandler), [Other("x")], path);
  }

  /**
   * A relation handler registered behind the course pattern panics on a
   * course path, so an entry registered after it never gets its handler
   * called, and no 404 is written.
   */
  method PanicStopsDispatch() returns (invoked: seq<Handler>, error: Option<HttpError>, panicked: bool)
    ensures invoked == [Func(SpecificCourseRelationHandler)]
    ensures panicked && error == None
  {
    var mux := new RegExpMux();
    mux.HandleFunc(ApiSpecificCourse, SpecificCourseRelationHandler);
    mux.Handle(ApiSpecificCourse, Other("x"));
    assert mux.entries == MisroutedEntries;
    var path := "/v1/courses/1";
    MisroutedDispatch(path);
    invoked, error, panicked := mux.ServeHTTP(path);
    assert invoked[0] == Func(SpecificCourseRelationHandler);
  }
}
