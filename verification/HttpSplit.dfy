/** Which URLs http_parser_parse_url accepts, and which fields it sets, told from the text. */
module HttpSplit {
  import opened HttpTypes
  import opened HttpUrl
  import opened HttpConnect

  // ----- The text of a URL, or of its beginning

  /** A scheme, as much of "://" as `slashes` says, a server, a path, and what follows a '?'
      and a '#'. */
  datatype Url = Url(scheme: string, slashes: nat, server: string, path: string, query: Option<string>,
                     fragment: Option<string>)

  predicate IsQueryChar(ch: char) { IsUrlChar(ch) || ch == '?' }
  predicate IsFragmentChar(ch: char) { IsUrlChar(ch) || ch == '?' || ch == '#' }

  predicate AllAlpha(s: string) { forall i :: 0 <= i < |s| ==> IsAlpha(s[i]) }
  predicate AllUrlChars(s: string) { forall i :: 0 <= i < |s| ==> IsUrlChar(s[i]) }
  predicate AllQueryChars(s: string) { forall i :: 0 <= i < |s| ==> IsQueryChar(s[i]) }
  predicate AllFragmentChars(s: string) { forall i :: 0 <= i < |s| ==> IsFragmentChar(s[i]) }

  /** A path, which only without a scheme may begin with '*'. */
  predicate IsPath(path: string, scheme: string) {
    path != "" && (path[0] == '/' || (scheme == "" && path[0] == '*')) && AllUrlChars(path[1..])
  }

  predicate UrlOk(u: Url) {
    AllAlpha(u.scheme) && u.slashes <= 3 && (u.slashes > 0 ==> u.scheme != "") &&
    (u.server != "" ==> u.slashes == 3) && ServerText(u.server) &&
    (u.path != "" ==> (u.scheme == "" || u.slashes == 3) && IsPath(u.path, u.scheme)) &&
    (u.query.Some? ==> (u.path != "" || u.slashes == 3) && AllQueryChars(u.query.value)) &&
    (u.fragment.Some? ==> (u.path != "" || u.query.Some?) && AllFragmentChars(u.fragment.value))
  }

  function Behind(mark: char, s: Option<string>): string { if s.Some? then [mark] + s.value else "" }

  function Front(u: Url): string { u.scheme + "://"[..if u.slashes <= 3 then u.slashes else 3] + u.server }

  function TextOf(u: Url): string { Front(u) + u.path + Behind('?', u.query) + Behind('#', u.fragment) }

  /** What is left of a fragment behind further '#'. */
  function Stripped(f: string): string { if f != "" && f[0] == '#' then Stripped(f[1..]) else f }

  // ----- What the first pass makes of it

  function StateOf(u: Url): TargetState {
    if u.fragment.Some? then (if Stripped(u.fragment.value) == "" then ReqFragmentStart else ReqFragment)
    else if u.query.Some? then (if u.query.value == "" then ReqQueryStringStart else ReqQueryString)
    else if u.path != "" then ReqPath
    else if u.slashes >= 3 then
      if u.server == "" then ReqServerStart
      else if u.server[|u.server| - 1] == '@' then ReqServerWithAt else ReqServer
    else if u.slashes == 2 then ReqSchemaSlashSlash
    else if u.slashes == 1 then ReqSchemaSlash
    else if u.scheme != "" then ReqSchema else ReqSpacesBeforeUrl
  }

  function With(parts: Parts, k: Part, off: nat, len: nat): Parts {
    if len > 0 then parts[k := Slice(off, len)] else parts
  }

  function FirstFields(u: Url): Parts {
    With(With(map[], Schema, 0, |u.scheme|), Host, |u.scheme| + 3, |u.server|)
  }

  function PathFields(u: Url): Parts { With(FirstFields(u), Path, |Front(u)|, |u.path|) }

  function QueryFields(u: Url): Parts {
    if u.query.Some? then With(PathFields(u), Query, |Front(u)| + |u.path| + 1, |u.query.value|) else PathFields(u)
  }

  /** The fields, each set if its part is there and not empty. */
  function FieldsOf(u: Url): Parts {
    if u.fragment.None? then QueryFields(u)
    else
      var n := |Stripped(u.fragment.value)|;
      With(QueryFields(u), Fragment, if n <= |TextOf(u)| then |TextOf(u)| - n else 0, n)
  }

  function LastOf(u: Url): Option<Part> {
    if u.fragment.Some? && Stripped(u.fragment.value) != "" then Some(Fragment)
    else if u.query.Some? && u.query.value != "" then Some(Query)
    else if u.path != "" then Some(Path)
    else if u.server != "" then Some(Host)
    else if u.scheme != "" then Some(Schema) else None
  }

  function PassOf(u: Url): Pass { Pass(StateOf(u), LastOf(u), '@' in u.server, FieldsOf(u)) }

  /** One more byte. */
  function Next(u: Url, ch: char): Url {
    if u.fragment.Some? then u.(fragment := Some(u.fragment.value + [ch]))
    else if ch == '#' && (u.path != "" || u.query.Some?) then u.(fragment := Some(""))
    else if u.query.Some? then u.(query := Some(u.query.value + [ch]))
    else if ch == '?' && (u.path != "" || u.slashes == 3) then u.(query := Some(""))
    else if u.path != "" || (u.slashes == 3 && ch == '/') || (u.scheme == "" && (ch == '/' || ch == '*'))
    then u.(path := u.path + [ch])
    else if u.slashes == 3 then u.(server := u.server + [ch])
    else if u.slashes > 0 || ch == ':' then u.(slashes := u.slashes + 1)
    else u.(scheme := u.scheme + [ch])
  }

  /** The byte that Next would have to be given at that place of "://". */
  predicate Fits(u: Url, ch: char) {
    u.slashes < 3 && u.path == "" && u.query.None? && u.fragment.None? && (u.slashes > 0 || ch == ':') && u.scheme != "" ==>
      ch == "://"[u.slashes]
  }

  lemma {:induction false} StrippedMore(f: string, ch: char)
    ensures Stripped(f + [ch]) == if Stripped(f) == "" && ch == '#' then "" else Stripped(f) + [ch]
  {
    if f == "" {
      assert f + [ch] == [ch] && [ch][1..] == "";
    } else if f[0] == '#' {
      assert (f + [ch])[1..] == f[1..] + [ch];
      StrippedMore(f[1..], ch);
    }
  }

  predicate Stepped(u: Url, ch: char) {
    ParseUrlChar(StateOf(u), ch) ==
    if UrlOk(Next(u, ch)) && Fits(u, ch) then Some(StateOf(Next(u, ch))) else None
  }

  lemma CharsMore(s: string, ch: char)
    ensures AllAlpha(s + [ch]) <==> AllAlpha(s) && IsAlpha(ch)
    ensures AllUrlChars(s + [ch]) <==> AllUrlChars(s) && IsUrlChar(ch)
    ensures AllQueryChars(s + [ch]) <==> AllQueryChars(s) && IsQueryChar(ch)
    ensures AllFragmentChars(s + [ch]) <==> AllFragmentChars(s) && IsFragmentChar(ch)
    ensures s != "" ==> (s + [ch])[1..] == s[1..] + [ch] && (s + [ch])[0] == s[0]
    ensures (s + [ch])[|s + [ch]| - 1] == ch
  {
    hide IsAlpha, IsUrlChar, IsQueryChar, IsFragmentChar;
    var t := s + [ch];
    assert t[|s|] == ch && forall i :: 0 <= i < |s| ==> t[i] == s[i];
  }

  lemma ServerTextMore(s: string, ch: char)
    ensures ServerText(s + [ch]) <==>
      ServerText(s) && IsServerChar(ch) && (s != "" ==> ch != '@' || s[|s| - 1] != '@')
    ensures '@' in s + [ch] <==> '@' in s || ch == '@'
  {
    hide IsServerChar;
    var t := s + [ch];
    assert t[|s|] == ch && forall i :: 0 <= i < |s| ==> t[i] == s[i];
  }

  lemma FragmentStep(u: Url, ch: char)
    requires UrlOk(u) && (u.fragment.Some? || (ch == '#' && (u.path != "" || u.query.Some?)))
    ensures Stepped(u, ch)
  {
    hide ServerText, IsPath, AllAlpha, AllQueryChars, AllUrlChars, AllFragmentChars, Stripped;
    if u.fragment.Some? {
      CharsMore(u.fragment.value, ch);
      StrippedMore(u.fragment.value, ch);
    } else {
      NoChars();
    }
  }

  lemma NoChars()
    ensures AllFragmentChars("") && AllQueryChars("") && AllUrlChars("") && AllAlpha("") && ServerText("") && Stripped("") == ""
  {
  }

  lemma QueryStep(u: Url, ch: char)
    requires UrlOk(u) && u.fragment.None? && (u.query.Some? || (ch == '?' && (u.path != "" || u.slashes == 3)))
    requires u.query.Some? ==> ch != '#'
    ensures Stepped(u, ch)
  {
    hide ServerText, IsPath, AllAlpha, AllQueryChars, AllUrlChars, AllFragmentChars, Stripped;
    NoChars();
    if u.query.Some? {
      CharsMore(u.query.value, ch);
    }
  }

  lemma PathStep(u: Url, ch: char)
    requires UrlOk(u) && u.fragment.None? && u.query.None? && u.path != "" && ch != '?' && ch != '#'
    ensures Stepped(u, ch)
  {
    hide ServerText, AllAlpha, AllQueryChars, AllUrlChars, AllFragmentChars, Stripped;
    CharsMore(u.path, ch);
    CharsMore(u.path[1..], ch);
  }

  lemma ServerStep2(u: Url, ch: char)
    requires UrlOk(u) && u.fragment.None? && u.query.None? && u.path == "" && u.slashes == 3 && ch != '?'
    ensures Stepped(u, ch)
  {
    hide ServerText, AllAlpha, AllQueryChars, AllUrlChars, AllFragmentChars, Stripped;
    ServerTextMore(u.server, ch);
    ServerMoves(StateOf(u), ch);
    NoSlash();
    NoChars();
    CharsMore(u.server, ch);
    assert [ch][1..] == "" && "" + [ch] == [ch];
  }

  lemma ServerMoves(s: TargetState, ch: char)
    requires s.ReqServerStart? || s.ReqServer? || s.ReqServerWithAt?
    ensures ch != '?' ==>
      ParseUrlChar(s, ch) ==
      if ch == '/' then Some(ReqPath)
      else if !IsServerChar(ch) || (ch == '@' && s.ReqServerWithAt?) then None
      else Some(if ch == '@' then ReqServerWithAt else ReqServer)
  {
  }

  lemma NoSlash()
    ensures !IsServerChar('/') && !IsServerChar('?')
  {
  }

  lemma SchemeStep(u: Url, ch: char)
    requires UrlOk(u) && u.fragment.None? && u.query.None? && u.path == "" && u.slashes < 3
    ensures Stepped(u, ch)
  {
    hide ServerText, AllAlpha, AllQueryChars, AllUrlChars, AllFragmentChars, Stripped;
    NoChars();
    CharsMore(u.scheme, ch);
    assert [ch][1..] == "" && "" + [ch] == [ch];
  }

  lemma StateStep(u: Url, ch: char)
    requires UrlOk(u)
    ensures Stepped(u, ch)
  {
    hide UrlOk, Stepped;
    if u.fragment.Some? || (ch == '#' && (u.path != "" || u.query.Some?)) {
      FragmentStep(u, ch);
    } else if u.query.Some? || (ch == '?' && (u.path != "" || u.slashes == 3)) {
      QueryStep(u, ch);
    } else if u.path != "" {
      PathStep(u, ch);
    } else if u.slashes == 3 {
      ServerStep2(u, ch);
    } else {
      SlashesBound(u);
      SchemeStep(u, ch);
    }
  }

  lemma SlashesBound(u: Url)
    requires UrlOk(u)
    ensures u.slashes <= 3
  {
  }

  /** How one byte changes the text and the fields. */
  predicate Extends(u: Url, v: Url, ch: char) {
    TextOf(v) == TextOf(u) + [ch] &&
    ('@' in v.server <==> '@' in u.server || StateOf(v).ReqServerWithAt?) &&
    match PartOf(StateOf(v))
    case None => FieldsOf(v) == FieldsOf(u) && LastOf(v) == LastOf(u)
    case Some(k) =>
      LastOf(v) == Some(k) &&
      if LastOf(u) == Some(k) then k in FieldsOf(u) && FieldsOf(v) == Longer(FieldsOf(u), k)
      else FieldsOf(v) == FieldsOf(u)[k := Slice(|TextOf(u)|, 1)]
  }

  lemma WithMore(parts: Parts, k: Part, off: nat, len: nat)
    ensures len > 0 ==> k in With(parts, k, off, len) && With(parts, k, off, len + 1) == Longer(With(parts, k, off, len), k)
    ensures len == 0 ==> With(parts, k, off, len + 1) == parts[k := Slice(off, 1)]
  {
  }

  /** The text without what is not there. */
  lemma TextShort(u: Url)
    ensures TextOf(u) == Front(u) + u.path + Behind('?', u.query) + Behind('#', u.fragment)
    ensures u.fragment.None? ==> TextOf(u) == Front(u) + u.path + Behind('?', u.query)
    ensures u.fragment.None? && u.query.None? ==> TextOf(u) == Front(u) + u.path
    ensures u.fragment.None? && u.query.None? && u.path == "" ==> TextOf(u) == Front(u)
  {
    hide Front;
  }

  lemma FrontSame(u: Url, v: Url)
    requires v.scheme == u.scheme && v.slashes == u.slashes && v.server == u.server
    ensures Front(v) == Front(u)
  {
  }

  lemma TextMore(a: string, b: string, ch: char)
    ensures a + (b + [ch]) == a + b + [ch]
  {
  }

  lemma {:induction false} StrippedShort(f: string)
    ensures |Stripped(f)| <= |f|
  {
    if f != "" && f[0] == '#' { StrippedShort(f[1..]); }
  }

  lemma FragmentExtends(u: Url, ch: char)
    requires UrlOk(u) && UrlOk(Next(u, ch)) && (u.fragment.Some? || (ch == '#' && (u.path != "" || u.query.Some?)))
    ensures Extends(u, Next(u, ch), ch)
  {
    hide UrlOk, Front, With, TextOf;
    var v := Next(u, ch);
    TextShort(u);
    TextShort(v);
    FrontSame(u, v);
    if u.fragment.Some? {
      var f := u.fragment.value;
      StrippedMore(f, ch);
      StrippedShort(f);
      StrippedShort(f + [ch]);
      assert ['#'] + (f + [ch]) == ['#'] + f + [ch];
      TextMore(Front(u) + u.path + Behind('?', u.query), ['#'] + f, ch);
      var base := QueryFields(u);
      assert QueryFields(v) == base by { SameQueries(u, v); }
      WithMore(base, Fragment, |TextOf(u)| - |Stripped(f)|, |Stripped(f)|);
      WithNone(base, Fragment, |TextOf(u)| - |Stripped(f)|);
      WithNone(base, Fragment, |TextOf(v)|);
    } else {
      NoChars();
      assert Behind('#', v.fragment) == ['#'];
      SameQueries(u, v);
      WithNone(QueryFields(u), Fragment, |TextOf(v)|);
    }
  }

  lemma SameQueries(u: Url, v: Url)
    requires v == u.(fragment := v.fragment)
    ensures QueryFields(v) == QueryFields(u)
  {
  }

  lemma WithNone(parts: Parts, k: Part, off: nat)
    ensures With(parts, k, off, 0) == parts
  {
  }

  lemma QueryExtends(u: Url, ch: char)
    requires UrlOk(u) && UrlOk(Next(u, ch)) && u.fragment.None?
    requires if u.query.Some? then ch != '#' else ch == '?' && (u.path != "" || u.slashes == 3)
    ensures Extends(u, Next(u, ch), ch)
  {
    hide UrlOk, Front, With, TextOf;
    var v := Next(u, ch);
    TextShort(u);
    TextShort(v);
    FrontSame(u, v);
    var base, off := PathFields(u), |Front(u)| + |u.path| + 1;
    SamePaths(u, v);
    if u.query.Some? {
      var q := u.query.value;
      assert ['?'] + (q + [ch]) == ['?'] + q + [ch];
      TextMore(Front(u) + u.path, ['?'] + q, ch);
      assert Behind('?', v.query) == Behind('?', u.query) + [ch];
      WithMore(base, Query, off, |q|);
    } else {
      assert Behind('?', v.query) == ['?'];
    }
    WithNone(base, Query, off);
  }

  lemma SamePaths(u: Url, v: Url)
    requires v == u.(fragment := v.fragment, query := v.query)
    ensures PathFields(v) == PathFields(u) && FirstFields(v) == FirstFields(u)
  {
  }

  lemma PathExtends(u: Url, ch: char)
    requires UrlOk(u) && UrlOk(Next(u, ch)) && u.fragment.None? && u.query.None?
    requires Next(u, ch) == u.(path := u.path + [ch])
    ensures Extends(u, Next(u, ch), ch)
  {
    hide UrlOk, Front, With, TextOf;
    var v := Next(u, ch);
    TextShort(u);
    TextShort(v);
    FrontSame(u, v);
    TextMore(Front(u), u.path, ch);
    CharsMore(u.path, ch);
    assert FirstFields(v) == FirstFields(u);
    WithNone(FirstFields(u), Path, |Front(u)|);
    WithMore(FirstFields(u), Path, |Front(u)|, |u.path|);
  }

  lemma ServerExtends(u: Url, ch: char)
    requires UrlOk(u) && UrlOk(Next(u, ch)) && u.fragment.None? && u.query.None? && u.path == ""
    requires u.slashes == 3 && Next(u, ch) == u.(server := u.server + [ch])
    ensures Extends(u, Next(u, ch), ch)
  {
    hide UrlOk, With, TextOf;
    var v := Next(u, ch);
    TextShort(u);
    TextShort(v);
    assert "://"[..3] == "://";
    TextMore(u.scheme + "://", u.server, ch);
    ServerTextMore(u.server, ch);
    CharsMore(u.server, ch);
    var base := With(map[], Schema, 0, |u.scheme|);
    WithMore(base, Host, |u.scheme| + 3, |u.server|);
    WithNone(base, Host, |u.scheme| + 3);
    WithNone(FirstFields(u), Path, |Front(u)|);
    WithNone(FirstFields(v), Path, |Front(v)|);
    assert |Front(u)| == |u.scheme| + 3 + |u.server|;
  }

  lemma SchemeExtends(u: Url, ch: char)
    requires UrlOk(u) && UrlOk(Next(u, ch)) && Fits(u, ch) && u.fragment.None? && u.query.None? && u.path == ""
    requires u.slashes < 3 && Next(u, ch).path == "" && Next(u, ch).query.None? && Next(u, ch).fragment.None?
    ensures Extends(u, Next(u, ch), ch)
  {
    hide TextOf;
    var v := Next(u, ch);
    TextShort(u);
    TextShort(v);
    assert u.server == "" && v.server == "";
    if v.slashes == u.slashes {
      assert u.slashes == 0 && "://"[..0] == "";
      assert Front(v) == u.scheme + [ch] && Front(u) == u.scheme;
    } else {
      assert "://"[..v.slashes] == "://"[..u.slashes] + [ch];
      assert Front(v) == Front(u) + [ch];
    }
  }

  lemma AllExtend(u: Url, ch: char)
    requires UrlOk(u) && UrlOk(Next(u, ch)) && Fits(u, ch)
    ensures Extends(u, Next(u, ch), ch)
  {
    hide UrlOk, Extends, Fits;
    SlashesBound(u);
    if u.fragment.Some? || (ch == '#' && (u.path != "" || u.query.Some?)) {
      FragmentExtends(u, ch);
    } else if u.query.Some? || (ch == '?' && (u.path != "" || u.slashes == 3)) {
      QueryExtends(u, ch);
    } else if u.path != "" || (u.slashes == 3 && ch == '/') || (u.scheme == "" && (ch == '/' || ch == '*')) {
      PathExtends(u, ch);
    } else if u.slashes == 3 {
      ServerExtends(u, ch);
    } else {
      SchemeExtends(u, ch);
    }
  }

  /** One byte of the first pass. */
  lemma PassStep(u: Url, ch: char)
    requires UrlOk(u)
    ensures PassOk(PassOf(u))
    ensures UrlByte(PassOf(u), ch, |TextOf(u)|) ==
            if UrlOk(Next(u, ch)) && Fits(u, ch) then Some(PassOf(Next(u, ch))) else None
    ensures UrlOk(Next(u, ch)) && Fits(u, ch) ==> TextOf(Next(u, ch)) == TextOf(u) + [ch]
  {
    hide UrlOk, Fits, ParseUrlChar, StateOf, FieldsOf, LastOf, TextOf, Next;
    StateStep(u, ch);
    LastIn(u);
    if UrlOk(Next(u, ch)) && Fits(u, ch) {
      AllExtend(u, ch);
    }
  }

  lemma LastIn(u: Url)
    ensures LastOf(u).Some? ==> LastOf(u).value in FieldsOf(u)
  {
    hide TextOf, Front, Stripped;
  }

  /** The URL text without its last byte. */
  function Before(u: Url): Url {
    if u.fragment.Some? then
      var f := u.fragment.value;
      u.(fragment := if f == "" then None else Some(f[..|f| - 1]))
    else if u.query.Some? then
      var q := u.query.value;
      u.(query := if q == "" then None else Some(q[..|q| - 1]))
    else if u.path != "" then u.(path := u.path[..|u.path| - 1])
    else if u.server != "" then u.(server := u.server[..|u.server| - 1])
    else if u.slashes > 0 then u.(slashes := u.slashes - 1)
    else if u.scheme != "" then u.(scheme := u.scheme[..|u.scheme| - 1])
    else u
  }

  lemma LessChars(s: string)
    requires s != ""
    ensures s[..|s| - 1] + [s[|s| - 1]] == s
    ensures AllAlpha(s) ==> AllAlpha(s[..|s| - 1]) && IsAlpha(s[|s| - 1])
    ensures AllQueryChars(s) ==> AllQueryChars(s[..|s| - 1]) && IsQueryChar(s[|s| - 1])
    ensures AllFragmentChars(s) ==> AllFragmentChars(s[..|s| - 1]) && IsFragmentChar(s[|s| - 1])
    ensures ServerText(s) ==> ServerText(s[..|s| - 1]) && IsServerChar(s[|s| - 1])
    ensures |s| > 1 && AllUrlChars(s[1..]) ==>
      AllUrlChars(s[..|s| - 1][1..]) && IsUrlChar(s[|s| - 1]) && s[..|s| - 1][0] == s[0]
  {
    hide IsAlpha, IsUrlChar, IsQueryChar, IsFragmentChar, IsServerChar;
    if |s| > 1 {
      assert s[..|s| - 1][1..] == s[1..][..|s| - 2] && s[1..][|s| - 2] == s[|s| - 1];
    }
  }

  /** Every URL text is reached byte by byte. */
  lemma Steps(u: Url)
    requires UrlOk(u) && TextOf(u) != ""
    ensures UrlOk(Before(u))
    ensures exists ch :: Next(Before(u), ch) == u && Fits(Before(u), ch)
  {
    hide AllAlpha, AllQueryChars, AllUrlChars, AllFragmentChars, ServerText, IsAlpha, IsUrlChar, IsQueryChar,
      IsFragmentChar, TextOf;
    NoChars();
    var p := Before(u);
    if u.fragment.Some? {
      var f := u.fragment.value;
      if f == "" {
        assert Next(p, '#') == u && Fits(p, '#');
      } else {
        LessChars(f);
        assert Next(p, f[|f| - 1]) == u && Fits(p, f[|f| - 1]);
      }
    } else if u.query.Some? {
      var q := u.query.value;
      if q == "" {
        assert Next(p, '?') == u && Fits(p, '?');
      } else {
        LessChars(q);
        NotQueryChars();
        assert Next(p, q[|q| - 1]) == u && Fits(p, q[|q| - 1]);
      }
    } else if u.path != "" {
      PathSteps(u);
    } else if u.server != "" {
      LessChars(u.server);
      NoSlash();
      assert Next(p, u.server[|u.server| - 1]) == u && Fits(p, u.server[|u.server| - 1]);
    } else if u.slashes > 0 {
      assert Next(p, "://"[p.slashes]) == u && Fits(p, "://"[p.slashes]);
    } else {
      SomeScheme(u);
      LessChars(u.scheme);
      NotAlphas();
      assert Next(p, u.scheme[|u.scheme| - 1]) == u && Fits(p, u.scheme[|u.scheme| - 1]);
    }
  }

  lemma PathSteps(u: Url)
    requires UrlOk(u) && u.path != "" && u.query.None? && u.fragment.None?
    ensures UrlOk(Before(u))
    ensures exists ch :: Next(Before(u), ch) == u && Fits(Before(u), ch)
  {
    hide AllAlpha, AllQueryChars, AllFragmentChars, ServerText, IsAlpha, IsUrlChar, IsQueryChar, IsFragmentChar;
    var p, ch := Before(u), u.path[|u.path| - 1];
    LessChars(u.path);
    NotUrlChars();
    assert Next(p, ch) == u && Fits(p, ch);
  }

  lemma SomeScheme(u: Url)
    requires UrlOk(u) && TextOf(u) != "" && u.fragment.None? && u.query.None? && u.path == "" && u.server == ""
    requires u.slashes == 0
    ensures u.scheme != ""
  {
  }

  lemma NotQueryChars()
    ensures !IsQueryChar('#')
  {
  }

  lemma NotUrlChars()
    ensures !IsUrlChar('#') && !IsUrlChar('?')
  {
  }

  lemma NotAlphas()
    ensures !IsAlpha('/') && !IsAlpha('*') && !IsAlpha(':') && !IsAlpha('?') && !IsAlpha('#')
  {
  }

  /** The first pass succeeds exactly on the texts of URLs, or beginnings of them, and finds
      their fields. */
  lemma {:induction false} FirstPassExact(buf: string, n: nat, u: Url)
    requires n <= |buf| && UrlOk(u) && TextOf(u) == buf[..n]
    ensures Scan(buf, false, n) == Some(PassOf(u))
  {
    hide UrlOk, TextOf, UrlByte, PassOf, Next, Fits;
    if n == 0 {
      OnlyNothing(u);
    } else {
      Steps(u);
      var p := Before(u);
      var ch :| Next(p, ch) == u && Fits(p, ch);
      PassStep(p, ch);
      assert TextOf(p) + [ch] == buf[..n];
      assert TextOf(p) == (TextOf(p) + [ch])[..n - 1] == buf[..n][..n - 1] == buf[..n - 1] && ch == buf[..n][n - 1];
      FirstPassExact(buf, n - 1, p);
    }
  }

  lemma OnlyNothing(u: Url)
    requires UrlOk(u) && TextOf(u) == ""
    ensures PassOf(u) == FirstPass(false)
  {
  }

  lemma {:induction false} FirstPassText(buf: string, n: nat) returns (u: Url)
    requires n <= |buf| && Scan(buf, false, n).Some?
    ensures UrlOk(u) && TextOf(u) == buf[..n]
  {
    hide UrlOk, TextOf, UrlByte, PassOf, Next, Fits;
    if n == 0 {
      u := Url.Url("", 0, "", "", None, None);
      NothingOk();
    } else {
      var p := FirstPassText(buf, n - 1);
      FirstPassExact(buf, n - 1, p);
      u := Next(p, buf[n - 1]);
      PassStep(p, buf[n - 1]);
      assert buf[..n] == buf[..n - 1] + [buf[n - 1]];
    }
  }

  lemma NothingOk()
    ensures var u := Url.Url("", 0, "", "", None, None); UrlOk(u) && TextOf(u) == ""
  {
  }

  // ----- The text of a server, or of its beginning

  /** Userinfo and an '@', a plain host or an IPv6 address with its zone in brackets, a
      colon and a port.  `wanted`: the server has an '@'. */
  datatype Authority = Authority(wanted: bool, user: string, seen: bool, host: string, open: bool, address: string,
                                 zone: Option<string>, closed: bool, colon: bool, port: string)

  predicate AllUserinfoChars(s: string) { forall i :: 0 <= i < |s| ==> IsUserinfoChar(s[i]) }

  predicate AuthorityOk(a: Authority) {
    AllUserinfoChars(a.user) && (!a.wanted ==> a.user == "" && !a.seen) &&
    (a.wanted && !a.seen ==> a.host == "" && !a.open && !a.colon) &&
    AllHostChars(a.host) && (a.host != "" ==> !a.open) &&
    AllV6Chars(a.address) && (a.address != "" ==> a.open) &&
    (a.zone.Some? ==> a.address != "" && AllZoneChars(a.zone.value)) &&
    (a.closed ==> a.address != "" && a.zone != Some("")) && (a.colon ==> a.host != "" || a.closed) &&
    (a.port != "" ==> a.colon) && AllDigits(a.port)
  }

  function Sign(b: bool, ch: char): string { if b then [ch] else "" }

  /** The host field: a plain host, or what stands in brackets. */
  function Name(a: Authority): string { if a.open then a.address + Behind('%', a.zone) else a.host }

  function UserText(a: Authority): string { a.user + Sign(a.seen, '@') + Sign(a.open, '[') }

  function ServerOf(a: Authority): string {
    UserText(a) + Name(a) + Sign(a.closed, ']') + Sign(a.colon, ':') + a.port
  }

  function HostStateOf(a: Authority): HostState {
    if a.wanted && !a.seen then (if a.user == "" then UserinfoStart else Userinfo)
    else if a.port != "" then InPort
    else if a.colon then PortStart
    else if a.closed then V6End
    else if a.open then
      if a.address == "" then V6Start else if a.zone.None? then V6 else if a.zone.value == "" then V6ZoneStart else V6Zone
    else if a.host == "" then HostStart else InHost
  }

  /** The three fields, in a region that starts at lo. */
  function UserFields(a: Authority, base: Parts, lo: nat): Parts { With(base[Host := Slice(lo, 0)], UserInfo, lo, |a.user|) }

  function NameFields(a: Authority, base: Parts, lo: nat): Parts {
    With(UserFields(a, base, lo), Host, lo + |UserText(a)|, |Name(a)|)
  }

  function ServerFields(a: Authority, base: Parts, lo: nat): Parts {
    With(NameFields(a, base, lo), Port, lo + |ServerOf(a)| - |a.port|, |a.port|)
  }

  function HostPassOf(a: Authority, base: Parts, lo: nat): HostPass { HostPass(HostStateOf(a), ServerFields(a, base, lo)) }

  function NextIn(a: Authority, ch: char): Authority {
    if a.wanted && !a.seen then (if ch == '@' then a.(seen := true) else a.(user := a.user + [ch]))
    else if a.colon || a.port != "" then a.(port := a.port + [ch])
    else if a.closed then (if ch == ':' then a.(colon := true) else a.(port := [ch]))
    else if a.open then
      if ch == ']' then a.(closed := true)
      else if a.zone.Some? then a.(zone := Some(a.zone.value + [ch]))
      else if ch == '%' then a.(zone := Some(""))
      else a.(address := a.address + [ch])
    else if a.host != "" && ch == ':' then a.(colon := true)
    else if a.host == "" && ch == '[' then a.(open := true)
    else a.(host := a.host + [ch])
  }

  lemma MoreIn(s: string, ch: char)
    ensures AllUserinfoChars(s + [ch]) <==> AllUserinfoChars(s) && IsUserinfoChar(ch)
    ensures AllHostChars(s + [ch]) <==> AllHostChars(s) && IsHostChar(ch)
    ensures AllV6Chars(s + [ch]) <==> AllV6Chars(s) && IsV6Char(ch)
    ensures AllZoneChars(s + [ch]) <==> AllZoneChars(s) && IsZoneChar(ch)
    ensures AllDigits(s + [ch]) <==> AllDigits(s) && IsNum(ch)
    ensures s + [ch] != ""
  {
    hide IsUserinfoChar, IsHostChar, IsV6Char, IsZoneChar, IsNum;
    var t := s + [ch];
    assert t[|s|] == ch && forall i :: 0 <= i < |s| ==> t[i] == s[i];
  }

  lemma NoneIn()
    ensures AllUserinfoChars("") && AllHostChars("") && AllV6Chars("") && AllZoneChars("") && AllDigits("")
  {
  }

  lemma Signs()
    ensures !IsUserinfoChar('@') && !IsHostChar(':') && !IsHostChar('[') && !IsV6Char(']') && !IsV6Char('%') && !IsZoneChar(']')
  {
  }

  /** One byte of http_parse_host_char. */
  lemma HostStateStep(a: Authority, ch: char)
    requires AuthorityOk(a)
    ensures HostChar(HostStateOf(a), ch) == if AuthorityOk(NextIn(a, ch)) then Some(HostStateOf(NextIn(a, ch))) else None
  {
    hide AllUserinfoChars, AllHostChars, AllV6Chars, AllZoneChars, AllDigits, IsUserinfoChar, IsHostChar, IsV6Char,
      IsZoneChar, IsNum;
    Signs();
    NoneIn();
    MoreIn(a.user, ch);
    MoreIn(a.host, ch);
    MoreIn(a.address, ch);
    MoreIn(a.port, ch);
    if a.zone.Some? { MoreIn(a.zone.value, ch); }
    assert a.port == "" ==> a.port + [ch] == [ch];
  }

  /** What http_parse_host does with the fields at byte i, where it moves from s to t. */
  function Filled(parts: Parts, s: HostState, t: HostState, i: nat): Parts
    requires Host in parts && (s.Userinfo? ==> UserInfo in parts) && (s.InPort? ==> Port in parts)
  {
    match HostPartOf(t)
    case None => parts
    case Some(k) =>
      if HostPartOf(s) == Some(k) then Longer(parts, k)
      else parts[k := Slice(i, if k == Host then parts[Host].len + 1 else 1)]
  }

  lemma HostByteFills(x: HostPass, ch: char, i: nat)
    requires HostPassOk(x)
    ensures HostByte(x, ch, i) ==
      match HostChar(x.s, ch)
      case None => None
      case Some(t) => Some(HostPass(t, Filled(x.parts, x.s, t, i)))
  {
    hide HostChar;
    if HostChar(x.s, ch).Some? { HostMoves(x.s, ch); OneState(x.s, ch); }
  }

  lemma OneState(s: HostState, ch: char)
    requires HostChar(s, ch).Some?
    ensures var t := HostChar(s, ch).value;
      HostPartOf(t) == HostPartOf(s) == Some(Host) ==> t == s || t.V6ZoneStart? || t.V6Zone?
  {
  }

  /** Where a server stands, and its three fields. */
  predicate InServer(a: Authority, base: Parts, lo: nat) {
    AuthorityOk(a) && HostBase(base) &&
    var parts := ServerFields(a, base, lo);
    Host in parts && (parts[Host].len == |Name(a)|) && (HostStateOf(a).Userinfo? ==> UserInfo in parts) &&
    (HostStateOf(a).InPort? ==> Port in parts)
  }

  lemma FieldsThere(a: Authority, base: Parts, lo: nat)
    requires AuthorityOk(a) && HostBase(base)
    ensures InServer(a, base, lo)
  {
    hide AuthorityOk, ServerOf, UserText, Name;
  }

  lemma ServerShort(a: Authority)
    requires AuthorityOk(a)
    ensures HostStateOf(a).UserinfoStart? || HostStateOf(a).Userinfo? ==> ServerOf(a) == a.user && Name(a) == ""
    ensures a.port == "" && !a.colon && !a.closed ==> ServerOf(a) == UserText(a) + Name(a)
    ensures a.port == "" && !a.colon ==> ServerOf(a) == UserText(a) + Name(a) + Sign(a.closed, ']')
    ensures a.port == "" ==> ServerOf(a) == UserText(a) + Name(a) + Sign(a.closed, ']') + Sign(a.colon, ':')
    ensures ServerOf(a) == UserText(a) + Name(a) + Sign(a.closed, ']') + Sign(a.colon, ':') + a.port
  {
    hide AllUserinfoChars, AllHostChars, AllV6Chars, AllZoneChars, AllDigits;
  }

  predicate ServerGrows(a: Authority, b: Authority, ch: char, base: Parts, lo: nat)
    requires InServer(a, base, lo)
  {
    ServerOf(b) == ServerOf(a) + [ch] &&
    ServerFields(b, base, lo) ==
    Filled(ServerFields(a, base, lo), HostStateOf(a), HostStateOf(b), lo + |ServerOf(a)|)
  }

  lemma UserGrows(a: Authority, ch: char, base: Parts, lo: nat)
    requires InServer(a, base, lo) && AuthorityOk(NextIn(a, ch)) && a.wanted && !a.seen && ch != '@'
    ensures ServerGrows(a, NextIn(a, ch), ch, base, lo)
  {
    hide AuthorityOk, ServerOf, With;
    var b := NextIn(a, ch);
    ServerShort(a);
    ServerShort(b);
    assert b.user != "";
    WithMore(base[Host := Slice(lo, 0)], UserInfo, lo, |a.user|);
    NothingMore(a, base, lo);
    NothingMore(b, base, lo);
    WithNone(base[Host := Slice(lo, 0)], UserInfo, lo);
  }

  lemma NothingMore(a: Authority, base: Parts, lo: nat)
    ensures Name(a) == "" ==> NameFields(a, base, lo) == UserFields(a, base, lo)
    ensures a.port == "" ==> ServerFields(a, base, lo) == NameFields(a, base, lo)
  {
  }

  lemma SignGrows(a: Authority, ch: char, base: Parts, lo: nat)
    requires InServer(a, base, lo) && AuthorityOk(NextIn(a, ch))
    requires var b := NextIn(a, ch); b == a.(seen := b.seen, open := b.open, closed := b.closed, colon := b.colon) && b != a
    ensures ServerGrows(a, NextIn(a, ch), ch, base, lo)
  {
    hide ServerOf, AllUserinfoChars, AllHostChars, AllV6Chars, AllZoneChars, AllDigits;
    var b := NextIn(a, ch);
    ServerShort(a);
    ServerShort(b);
  }

  lemma NameGrows(a: Authority, ch: char, base: Parts, lo: nat)
    requires InServer(a, base, lo) && AuthorityOk(NextIn(a, ch)) && (a.wanted ==> a.seen)
    requires var b := NextIn(a, ch); b == a.(host := b.host, address := b.address, zone := b.zone) && b != a
    ensures ServerGrows(a, NextIn(a, ch), ch, base, lo)
  {
    hide ServerOf, With, UserText, AllUserinfoChars, AllHostChars, AllV6Chars, AllZoneChars, AllDigits;
    var b := NextIn(a, ch);
    ServerShort(a);
    ServerShort(b);
    NameMore(a, b, ch);
    SameUser(a, b, base, lo);
    TextMore(UserText(a), Name(a), ch);
    NothingMore(a, base, lo);
    NothingMore(b, base, lo);
    WithMore(UserFields(a, base, lo), Host, lo + |UserText(a)|, |Name(a)|);
    WithNone(UserFields(a, base, lo), Host, lo + |UserText(a)|);
  }

  lemma NameMore(a: Authority, b: Authority, ch: char)
    requires AuthorityOk(a) && AuthorityOk(NextIn(a, ch)) && b == NextIn(a, ch) && (a.wanted ==> a.seen)
    requires b == a.(host := b.host, address := b.address, zone := b.zone) && b != a
    ensures Name(b) == Name(a) + [ch] && a.port == "" && !a.colon && !a.closed
    ensures HostPartOf(HostStateOf(b)) == Some(Host) && (HostPartOf(HostStateOf(a)) == Some(Host) <==> Name(a) != "")
  {
    hide AllUserinfoChars, AllHostChars, AllV6Chars, AllZoneChars, AllDigits;
    if a.open {
      if a.zone.Some? {
        assert ['%'] + (a.zone.value + [ch]) == ['%'] + a.zone.value + [ch];
        TextMore(a.address, ['%'] + a.zone.value, ch);
      } else {
        assert Behind('%', Some("")) == ['%'];
      }
    }
  }

  lemma SameUser(a: Authority, b: Authority, base: Parts, lo: nat)
    requires b == a.(host := b.host, address := b.address, zone := b.zone, port := b.port)
    ensures UserText(b) == UserText(a) && UserFields(b, base, lo) == UserFields(a, base, lo)
  {
  }

  lemma PortGrows(a: Authority, ch: char, base: Parts, lo: nat)
    requires InServer(a, base, lo) && AuthorityOk(NextIn(a, ch)) && NextIn(a, ch) == a.(port := a.port + [ch])
    ensures ServerGrows(a, NextIn(a, ch), ch, base, lo)
  {
    hide ServerOf, With, UserText, Name, AllUserinfoChars, AllHostChars, AllV6Chars, AllZoneChars, AllDigits;
    var b := NextIn(a, ch);
    ServerShort(a);
    ServerShort(b);
    SameUser(a, b, base, lo);
    SameName(a, b);
    var front := UserText(a) + Name(a) + Sign(a.closed, ']') + Sign(a.colon, ':');
    TextMore(front, a.port, ch);
    assert b.colon && b.port != "";
    WithMore(NameFields(a, base, lo), Port, lo + |front|, |a.port|);
    WithNone(NameFields(a, base, lo), Port, lo + |front|);
  }

  lemma SameName(a: Authority, b: Authority)
    requires b == a.(port := b.port)
    ensures Name(b) == Name(a)
  {
  }

  lemma AllGrow(a: Authority, ch: char, base: Parts, lo: nat)
    requires InServer(a, base, lo) && AuthorityOk(NextIn(a, ch))
    ensures ServerGrows(a, NextIn(a, ch), ch, base, lo)
  {
    hide ServerGrows, InServer;
    var b := NextIn(a, ch);
    NextCases(a, ch);
    if a.wanted && !a.seen && ch != '@' {
      UserGrows(a, ch, base, lo);
    } else if b == a.(port := a.port + [ch]) {
      PortGrows(a, ch, base, lo);
    } else if b == a.(host := b.host, address := b.address, zone := b.zone) {
      NameGrows(a, ch, base, lo);
    } else {
      SignGrows(a, ch, base, lo);
    }
  }

  lemma NextCases(a: Authority, ch: char)
    requires AuthorityOk(NextIn(a, ch))
    ensures var b := NextIn(a, ch);
      b != a &&
      ((a.wanted && !a.seen && ch != '@') || b == a.(port := a.port + [ch]) ||
       (b == a.(host := b.host, address := b.address, zone := b.zone) && (a.wanted ==> a.seen)) ||
       b == a.(seen := b.seen, open := b.open, closed := b.closed, colon := b.colon))
  {
    hide AllUserinfoChars, AllHostChars, AllV6Chars, AllZoneChars, AllDigits;
    assert a.port + [ch] != a.port && a.host + [ch] != a.host && a.address + [ch] != a.address;
    if a.zone.Some? { assert a.zone.value + [ch] != a.zone.value; }
  }

  /** One byte of the second pass. */
  lemma HostPassStep(a: Authority, ch: char, base: Parts, lo: nat)
    requires AuthorityOk(a) && HostBase(base)
    ensures HostPassOk(HostPassOf(a, base, lo))
    ensures HostByte(HostPassOf(a, base, lo), ch, lo + |ServerOf(a)|) ==
            if AuthorityOk(NextIn(a, ch)) then Some(HostPassOf(NextIn(a, ch), base, lo)) else None
    ensures AuthorityOk(NextIn(a, ch)) ==> ServerOf(NextIn(a, ch)) == ServerOf(a) + [ch]
  {
    hide AuthorityOk, HostChar, HostStateOf, ServerFields, ServerOf, NextIn, HostByte, HostBase, Name;
    FieldsThere(a, base, lo);
    HostStateStep(a, ch);
    HostByteFills(HostPassOf(a, base, lo), ch, lo + |ServerOf(a)|);
    if AuthorityOk(NextIn(a, ch)) {
      AllGrow(a, ch, base, lo);
    }
  }

  /** The server text without its last byte. */
  function BeforeIn(a: Authority): Authority {
    if a.port != "" then a.(port := a.port[..|a.port| - 1])
    else if a.colon then a.(colon := false)
    else if a.closed then a.(closed := false)
    else if a.zone.Some? then
      var z := a.zone.value;
      a.(zone := if z == "" then None else Some(z[..|z| - 1]))
    else if a.address != "" then a.(address := a.address[..|a.address| - 1])
    else if a.open then a.(open := false)
    else if a.host != "" then a.(host := a.host[..|a.host| - 1])
    else if a.seen then a.(seen := false)
    else if a.user != "" then a.(user := a.user[..|a.user| - 1])
    else a
  }

  lemma LessIn(s: string)
    requires s != ""
    ensures s[..|s| - 1] + [s[|s| - 1]] == s
    ensures AllUserinfoChars(s) ==> AllUserinfoChars(s[..|s| - 1]) && IsUserinfoChar(s[|s| - 1])
    ensures AllHostChars(s) ==> AllHostChars(s[..|s| - 1]) && IsHostChar(s[|s| - 1])
    ensures AllV6Chars(s) ==> AllV6Chars(s[..|s| - 1]) && IsV6Char(s[|s| - 1])
    ensures AllZoneChars(s) ==> AllZoneChars(s[..|s| - 1]) && IsZoneChar(s[|s| - 1])
    ensures AllDigits(s) ==> AllDigits(s[..|s| - 1]) && IsNum(s[|s| - 1])
  {
    hide IsUserinfoChar, IsHostChar, IsV6Char, IsZoneChar, IsNum;
  }

  lemma StepsIn(a: Authority)
    requires AuthorityOk(a) && ServerOf(a) != ""
    ensures AuthorityOk(BeforeIn(a)) && exists ch :: NextIn(BeforeIn(a), ch) == a
  {
    hide AuthorityOk, NextIn, BeforeIn, ServerOf;
    if a.port != "" || a.colon || a.closed || a.zone.Some? {
      LateSteps(a);
    } else if a.address != "" || a.open {
      AddressSteps(a);
    } else {
      EarlySteps(a);
    }
  }

  lemma LateSteps(a: Authority)
    requires AuthorityOk(a) && (a.port != "" || a.colon || a.closed || a.zone.Some?)
    ensures AuthorityOk(BeforeIn(a)) && exists ch :: NextIn(BeforeIn(a), ch) == a
  {
    hide AllUserinfoChars, AllHostChars, AllV6Chars, AllZoneChars, AllDigits, IsUserinfoChar, IsHostChar, IsV6Char,
      IsZoneChar, IsNum;
    Signs();
    NoneIn();
    var b := BeforeIn(a);
    if a.port != "" {
      LessIn(a.port);
      assert NextIn(b, a.port[|a.port| - 1]) == a;
    } else if a.colon {
      assert NextIn(b, ':') == a;
    } else if a.closed {
      assert NextIn(b, ']') == a;
    } else if a.zone.value == "" {
      assert NextIn(b, '%') == a;
    } else {
      LessIn(a.zone.value);
      assert NextIn(b, a.zone.value[|a.zone.value| - 1]) == a;
    }
  }

  lemma AddressSteps(a: Authority)
    requires AuthorityOk(a) && a.port == "" && !a.colon && !a.closed && a.zone.None? && (a.address != "" || a.open)
    ensures AuthorityOk(BeforeIn(a)) && exists ch :: NextIn(BeforeIn(a), ch) == a
  {
    hide AllUserinfoChars, AllHostChars, AllV6Chars, AllZoneChars, AllDigits, IsUserinfoChar, IsHostChar, IsV6Char,
      IsZoneChar, IsNum;
    Signs();
    NoneIn();
    var b := BeforeIn(a);
    if a.address != "" {
      LessIn(a.address);
      assert NextIn(b, a.address[|a.address| - 1]) == a;
    } else {
      assert NextIn(b, '[') == a;
    }
  }

  lemma EarlySteps(a: Authority)
    requires AuthorityOk(a) && a.port == "" && !a.colon && !a.closed && a.zone.None? && a.address == "" && !a.open
    requires ServerOf(a) != ""
    ensures AuthorityOk(BeforeIn(a)) && exists ch :: NextIn(BeforeIn(a), ch) == a
  {
    hide AllUserinfoChars, AllHostChars, AllV6Chars, AllZoneChars, AllDigits, IsUserinfoChar, IsHostChar, IsV6Char,
      IsZoneChar, IsNum;
    Signs();
    NoneIn();
    var b := BeforeIn(a);
    if a.host != "" {
      LessIn(a.host);
      assert NextIn(b, a.host[|a.host| - 1]) == a;
    } else if a.seen {
      assert NextIn(b, '@') == a;
    } else {
      SomeUser(a);
      LessIn(a.user);
      assert NextIn(b, a.user[|a.user| - 1]) == a;
    }
  }

  lemma SomeUser(a: Authority)
    requires ServerOf(a) != "" && a.port == "" && !a.colon && !a.closed && a.zone.None? && a.address == "" && !a.open &&
      a.host == "" && !a.seen
    ensures a.user != ""
  {
  }

  const NO_SERVER: Authority := Authority(false, "", false, "", false, "", None, false, false, "")

  lemma OnlyNoServer(a: Authority, base: Parts, lo: nat)
    requires AuthorityOk(a) && HostBase(base) && base[Host].off == lo
    ensures ServerOf(a) == "" ==> HostPassOf(a, base, lo) == FirstHostPass(base, a.wanted)
    ensures var b := NO_SERVER.(wanted := a.wanted); AuthorityOk(b) && ServerOf(b) == ""
  {
  }

  /** The second pass goes on exactly on the texts of servers, or beginnings of them. */
  lemma {:induction false} SecondPassExact(buf: string, base: Parts, n: nat, a: Authority)
    requires HostBase(base) && base[Host].off + n <= |buf| && AuthorityOk(a)
    requires ServerOf(a) == buf[base[Host].off..base[Host].off + n]
    ensures HostScan(buf, base, a.wanted, n) == Some(HostPassOf(a, base, base[Host].off))
  {
    hide AuthorityOk, ServerOf, HostByte, HostPassOf, NextIn, FirstHostPass;
    var lo := base[Host].off;
    if n == 0 {
      OnlyNoServer(a, base, lo);
    } else {
      StepsIn(a);
      var b := BeforeIn(a);
      var ch :| NextIn(b, ch) == a;
      HostPassStep(b, ch, base, lo);
      SameWanted(a);
      var t := buf[lo..lo + n];
      assert ServerOf(b) + [ch] == t;
      assert ServerOf(b) == (ServerOf(b) + [ch])[..n - 1] == t[..n - 1] == buf[lo..lo + n - 1] && ch == t[n - 1];
      SecondPassExact(buf, base, n - 1, b);
      assert HostScan(buf, base, a.wanted, n - 1) == Some(HostPassOf(b, base, lo)) && |ServerOf(b)| == n - 1;
      HostScanStep(buf, base, a.wanted, n - 1);
    }
  }

  lemma HostScanStep(buf: string, base: Parts, at: bool, n: nat)
    requires HostBase(base) && base[Host].off + n < |buf| && HostScan(buf, base, at, n).Some?
    ensures HostScan(buf, base, at, n + 1) ==
      HostByte(HostScan(buf, base, at, n).value, buf[base[Host].off + n], base[Host].off + n)
  {
    hide HostByte;
  }

  lemma SameWanted(a: Authority)
    ensures BeforeIn(a).wanted == a.wanted
  {
  }

  lemma {:induction false} SecondPassText(buf: string, base: Parts, n: nat, at: bool) returns (a: Authority)
    requires HostBase(base) && base[Host].off + n <= |buf| && HostScan(buf, base, at, n).Some?
    ensures AuthorityOk(a) && a.wanted == at && ServerOf(a) == buf[base[Host].off..base[Host].off + n]
  {
    hide AuthorityOk, ServerOf, HostByte, HostPassOf, NextIn, FirstHostPass;
    var lo := base[Host].off;
    if n == 0 {
      a := NO_SERVER.(wanted := at);
      NoServerOk(at);
    } else {
      var b := SecondPassText(buf, base, n - 1, at);
      SecondPassExact(buf, base, n - 1, b);
      var ch := buf[lo + n - 1];
      a := NextIn(b, ch);
      HostPassStep(b, ch, base, lo);
      NextWanted(b, ch);
      assert buf[lo..lo + n] == buf[lo..lo + n - 1] + [ch];
    }
  }

  lemma NoServerOk(at: bool)
    ensures var a := NO_SERVER.(wanted := at); AuthorityOk(a) && ServerOf(a) == ""
  {
  }

  lemma NextWanted(a: Authority, ch: char)
    ensures NextIn(a, ch).wanted == a.wanted
  {
  }

  // ----- Both passes

  /** The server ends with a host name or a port. */
  predicate Ended(a: Authority) { a.port != "" || (!a.colon && (a.host != "" || a.closed)) }

  /** A whole URL: without a scheme it is a path; with one, "://" and a server, which is a
      host name with perhaps userinfo in front and a port behind, and perhaps a path. */
  predicate IsUrl(buf: string, u: Url, a: Authority) {
    UrlOk(u) && TextOf(u) == buf && (u.scheme != "" ==> u.server != "") &&
    (u.server != "" ==> AuthorityOk(a) && ServerOf(a) == u.server && (a.wanted <==> '@' in u.server) && Ended(a))
  }

  /** The fields: each part that is there and not empty. */
  function SplitFields(u: Url, a: Authority): Parts {
    if u.server == "" then FieldsOf(u) else ServerFields(a, FieldsOf(u), |u.scheme| + 3)
  }

  lemma FieldsHost(u: Url)
    requires UrlOk(u)
    ensures UserInfo !in FieldsOf(u) && Port !in FieldsOf(u)
    ensures Schema in FieldsOf(u) <==> u.scheme != ""
    ensures if u.server == "" then Host !in FieldsOf(u) else Host in FieldsOf(u) && FieldsOf(u)[Host] == Slice(|u.scheme| + 3, |u.server|)
  {
    hide ServerText, IsPath, AllAlpha, AllQueryChars, AllUrlChars, AllFragmentChars, Stripped, TextOf, Front;
  }

  lemma ServerPlace(u: Url)
    requires UrlOk(u) && u.server != ""
    ensures var lo := |u.scheme| + 3; lo + |u.server| <= |TextOf(u)| && TextOf(u)[lo..lo + |u.server|] == u.server
  {
    hide ServerText, IsPath, AllAlpha, AllQueryChars, AllUrlChars, AllFragmentChars;
    assert "://"[..3] == "://";
    assert TextOf(u) == (u.scheme + "://") + (u.server + (u.path + Behind('?', u.query) + Behind('#', u.fragment)));
    var t := (u.scheme + "://") + (u.server + (u.path + Behind('?', u.query) + Behind('#', u.fragment)));
    assert t[|u.scheme| + 3..] == u.server + (u.path + Behind('?', u.query) + Behind('#', u.fragment));
  }

  lemma EndedIs(a: Authority)
    requires AuthorityOk(a)
    ensures HostDone(HostStateOf(a)) <==> Ended(a)
  {
  }

  /** Both passes succeed exactly on whole URLs, and set exactly their fields. */
  lemma UrlSplit(buf: string, u: Url, a: Authority)
    requires IsUrl(buf, u, a)
    ensures PartsOf(buf, false) == Some(SplitFields(u, a))
  {
    hide UrlOk, TextOf, AuthorityOk, ServerOf, Scan, HostScan, FieldsOf, ServerFields, HostStateOf, Ended, HostDone;
    assert buf[..|buf|] == buf;
    FirstPassExact(buf, |buf|, u);
    FieldsHost(u);
    if u.server != "" {
      ServerPlace(u);
      SecondPassExact(buf, FieldsOf(u), |u.server|, a);
      EndedIs(a);
    }
  }

  lemma SplitUrl(buf: string) returns (u: Url, a: Authority)
    requires PartsOf(buf, false).Some?
    ensures IsUrl(buf, u, a)
  {
    hide UrlOk, TextOf, AuthorityOk, ServerOf, Scan, HostScan, FieldsOf, ServerFields, HostStateOf, Ended, HostDone;
    assert buf[..|buf|] == buf;
    u := FirstPassText(buf, |buf|);
    a := NO_SERVER;
    FirstPassExact(buf, |buf|, u);
    FieldsHost(u);
    if u.server != "" {
      ServerPlace(u);
      a := SecondPassText(buf, FieldsOf(u), |u.server|, '@' in u.server);
      SecondPassExact(buf, FieldsOf(u), |u.server|, a);
      EndedIs(a);
    }
  }

  lemma PortText(buf: string, u: Url, a: Authority)
    requires IsUrl(buf, u, a) && u.server != "" && a.port != ""
    ensures Port in SplitFields(u, a)
    ensures var q := SplitFields(u, a)[Port]; EndOf(q) <= |buf| && buf[q.off..EndOf(q)] == a.port
  {
    hide UrlOk, TextOf, AuthorityOk, Name, UserText, NameFields, FieldsOf;
    ServerPlace(u);
    var s, n := ServerOf(a), |a.port|;
    assert s[|s| - n..] == a.port;
    var lo := |u.scheme| + 3;
    assert buf[lo..lo + |s|][|s| - n..] == buf[lo + |s| - n..lo + |s|];
  }

  lemma NoPort(u: Url, a: Authority)
    requires UrlOk(u) && (u.server == "" || a.port == "")
    ensures Port !in SplitFields(u, a)
  {
    hide UrlOk, TextOf, FieldsOf, ServerOf;
    FieldsHost(u);
  }

  predicate PortFits(u: Url, a: Authority) {
    u.server != "" && a.port != "" ==> AllDigits(a.port) && Decimal(a.port) <= 0xFFFF
  }

  /** http_parser_parse_url accepts a text without CONNECT exactly if it is a whole URL whose
      port, if there is one, is at most 65535. */
  lemma UrlExact(buf: string)
    ensures Accepted(buf, false) <==> exists u, a :: IsUrl(buf, u, a) && PortFits(u, a)
  {
    hide IsUrl, PortFits, SplitFields;
    if Accepted(buf, false) {
      var u, a := SplitUrl(buf);
      UrlSplit(buf, u, a);
      PortSame(buf, u, a);
    }
    if u, a :| IsUrl(buf, u, a) && PortFits(u, a) {
      UrlSplit(buf, u, a);
      PortSame(buf, u, a);
    }
  }

  lemma PortSame(buf: string, u: Url, a: Authority)
    requires IsUrl(buf, u, a)
    ensures Accepted(buf, false) <==> PortFits(u, a)
  {
    hide SplitFields, SplitOf, PartsOf, UrlOk, AuthorityOk, Decimal;
    UrlSplit(buf, u, a);
    FieldsSound(buf, false);
    if u.server != "" && a.port != "" {
      PortText(buf, u, a);
      PortEnds(buf, SplitFields(u, a));
      PortDigits(a);
    } else {
      NoPort(u, a);
    }
  }

  lemma PortDigits(a: Authority)
    requires AuthorityOk(a)
    ensures AllDigits(a.port)
  {
  }
}
