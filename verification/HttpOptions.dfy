/** The Connection header (section 6.1 of RFC 7230): which of its options
    http_parser_execute finds in a value. */
module HttpOptions {
  import opened HttpTypes
  import opened HttpStep
  import opened HttpRun
  import opened HttpCutting
  import opened HttpJoin
  import opened HttpHeader
  import opened HttpValue

  const KEEP_ALIVE: string := "keep-alive"
  const CLOSE: string := "close"

  /** A proper beginning of one of the three options. */
  predicate Partial(w: string) {
    w != "" && ((|w| < |KEEP_ALIVE| && Begins(w, KEEP_ALIVE)) || (|w| < |CLOSE| && Begins(w, CLOSE)) ||
                (|w| < |UPGRADE| && Begins(w, UPGRADE)))
  }

  /** Where an item ends: at the first comma that does not follow a proper beginning of an
      option.  The byte in front of position n belongs to the item whatever it is. */
  function ItemEnd(v: string, n: nat): (r: nat)
    requires 1 <= n <= |v|
    ensures n <= r <= |v| && (r < |v| ==> v[r] == ',')
    ensures forall i :: n <= i < r ==> v[i] != ',' || Partial(v[..i])
    decreases |v| - n
  {
    if n == |v| || (v[n] == ',' && !Partial(v[..n])) then n else ItemEnd(v, n + 1)
  }

  /** A space, or a NUL, which is one in lower case. */
  predicate IsGap(ch: char) { ch == ' ' || ch == '\0' }

  function Unspaced(v: string): (r: string)
    ensures |r| <= |v| && (r != "" ==> !IsGap(r[0]))
  {
    if v != "" && IsGap(v[0]) then Unspaced(v[1..]) else v
  }

  /** The items of a value. */
  function ItemsOf(v: string): seq<string>
    requires v != ""
    decreases |v|, 0
  {
    var n := ItemEnd(v, 1);
    if n == |v| then [v] else [v[..n]] + MoreItems(Unspaced(v[n + 1..]))
  }

  /** What follows a comma and spaces; anything but a token byte ends the list. */
  function MoreItems(rest: string): seq<string>
    decreases |rest|, 1
  {
    if rest == "" || Token(Lower(rest[0])) == '\0' then [] else ItemsOf(rest)
  }

  /** The value lists the option. */
  predicate Lists(items: seq<string>, option: string) { exists i :: 0 <= i < |items| && Names(items[i], option) }

  // ----- One item

  predicate InItem(w: string) { w != "" && forall i :: 1 <= i < |w| ==> w[i] != ',' || Partial(w[..i]) }

  predicate IsOther(w: string) {
    !Partial(w) && !Names(w, KEEP_ALIVE) && !Names(w, CLOSE) && !Names(w, UPGRADE)
  }

  /** What the state of the matcher says about an item so far. */
  predicate Reads(hs: HeaderState, index: nat, w: string) {
    match hs
    case MatchingConnectionKeepAlive => Matching(w, KEEP_ALIVE, index, 1)
    case MatchingConnectionClose => Matching(w, CLOSE, index, 1)
    case MatchingConnectionUpgrade => Matching(w, UPGRADE, index, 1)
    case ConnectionKeepAlive => Names(w, KEEP_ALIVE)
    case ConnectionClose => Names(w, CLOSE)
    case ConnectionUpgrade => Names(w, UPGRADE)
    case MatchingConnectionToken => IsOther(w)
    case _ => false
  }

  lemma OptionChars(i: nat)
    ensures i < |KEEP_ALIVE| ==> IsWordChar(KEEP_ALIVE[i])
    ensures i < |CLOSE| ==> IsWordChar(CLOSE[i])
    ensures i < |UPGRADE| ==> IsWordChar(UPGRADE[i])
  {
  }

  lemma Options()
    ensures KEEP_ALIVE == "keep-alive" && CLOSE == "close" && UPGRADE == "upgrade"
    ensures |KEEP_ALIVE| == 10 && |CLOSE| == 5 && |UPGRADE| == 7
    ensures KEEP_ALIVE[0] == 'k' && CLOSE[0] == 'c' && UPGRADE[0] == 'u'
  {
  }

  lemma NamesStart(w: string, word: string)
    requires word != "" && Names(w, word)
    ensures |w| >= |word| && Begins([w[0]], word)
  {
    assert w[..|word|][0] == w[0] == [w[0]][0];
  }

  lemma BeginsStart(w: string, word: string)
    requires w != "" && Begins(w, word)
    ensures Begins([w[0]], word)
  {
  }

  lemma Parted(ch: char)
    ensures !(Begins([ch], KEEP_ALIVE) && Begins([ch], CLOSE)) && !(Begins([ch], KEEP_ALIVE) && Begins([ch], UPGRADE))
    ensures !(Begins([ch], CLOSE) && Begins([ch], UPGRADE))
  {
    hide Begins, KEEP_ALIVE, CLOSE, UPGRADE;
    Options();
    Different([ch], KEEP_ALIVE, CLOSE);
    Different([ch], KEEP_ALIVE, UPGRADE);
    Different([ch], CLOSE, UPGRADE);
  }

  /** An item that is or begins one option is or begins no other one. */
  lemma OnlyOne(w: string, word: string, other: string)
    requires w != "" && word in [KEEP_ALIVE, CLOSE, UPGRADE] && other in [KEEP_ALIVE, CLOSE, UPGRADE] && word != other
    requires Begins(w, word) || Names(w, word)
    ensures !Begins(w, other) && !Names(w, other)
  {
    hide Begins, Names, KEEP_ALIVE, CLOSE, UPGRADE;
    Options();
    Parted(w[0]);
    if Begins(w, word) { BeginsStart(w, word); }
    if Names(w, word) { NamesStart(w, word); }
    if Begins(w, other) { BeginsStart(w, other); }
    if Names(w, other) { NamesStart(w, other); }
  }

  lemma ItemFirst(g: Fields, f: Fields, ch: char)
    requires !IsLineEnd(ch)
    requires g == f.(hs := if Lower(ch) == 'k' then MatchingConnectionKeepAlive
                           else if Lower(ch) == 'c' then MatchingConnectionClose
                           else if Lower(ch) == 'u' then MatchingConnectionUpgrade else MatchingConnectionToken)
    requires g.index == 0
    ensures Reads(g.hs, g.index, [ch])
  {
    hide Lower, InWord, Begins, Names, KEEP_ALIVE, CLOSE, UPGRADE, IsLineEnd;
    Options();
    BeginsMore("", ch, KEEP_ALIVE);
    BeginsMore("", ch, CLOSE);
    BeginsMore("", ch, UPGRADE);
    NoneBegun(KEEP_ALIVE);
    NoneBegun(CLOSE);
    NoneBegun(UPGRADE);
    assert "" + [ch] == [ch];
    LowerIs(ch, 'k');
    LowerIs(ch, 'c');
    LowerIs(ch, 'u');
    NamesLong([ch], KEEP_ALIVE);
    NamesLong([ch], CLOSE);
    NamesLong([ch], UPGRADE);
  }

  predicate ItemStep(g: Fields, w: string, ch: char) {
    var r := ValueByte(g, ch);
    r.Scanned? && r.f == g.(hs := r.f.hs, index := r.f.index) && Reads(r.f.hs, r.f.index, w + [ch])
  }

  /** An item that has left an option behind stays another one. */
  lemma StaysOther(w: string, ch: char, word: string)
    requires w != "" && word in [KEEP_ALIVE, CLOSE, UPGRADE]
    ensures Begins(w + [ch], word) ==> Partial(w)
    ensures Names(w + [ch], word) ==> (Names(w, word) && ch == ' ') || Partial(w)
  {
    hide Begins, Names, KEEP_ALIVE, CLOSE, UPGRADE, InWord;
    BeginsMore(w, ch, word);
    NamesMore(w, ch, word);
  }

  lemma OtherByte(g: Fields, w: string, ch: char)
    requires w != "" && g.hs.MatchingConnectionToken? && IsOther(w) && ch != ','
    ensures ItemStep(g, w, ch)
  {
    hide Begins, Names, KEEP_ALIVE, CLOSE, UPGRADE;
    Options();
    StaysOther(w, ch, KEEP_ALIVE);
    StaysOther(w, ch, CLOSE);
    StaysOther(w, ch, UPGRADE);
  }

  /** Behind a whole option only spaces keep it one. */
  lemma OptionByte(g: Fields, w: string, ch: char, word: string, hit: HeaderState)
    requires w != "" && word in [KEEP_ALIVE, CLOSE, UPGRADE] && Names(w, word) && ch != ','
    requires hit == (if word == KEEP_ALIVE then ConnectionKeepAlive else if word == CLOSE then ConnectionClose
                     else ConnectionUpgrade)
    requires g.hs == hit
    ensures ItemStep(g, w, ch)
  {
    hide Begins, Names, KEEP_ALIVE, CLOSE, UPGRADE;
    Options();
    NotPartial(w, word);
    NamesMore(w, ch, word);
    StaysOther(w, ch, KEEP_ALIVE);
    StaysOther(w, ch, CLOSE);
    StaysOther(w, ch, UPGRADE);
  }

  lemma NotPartial(w: string, word: string)
    requires w != "" && word in [KEEP_ALIVE, CLOSE, UPGRADE] && Names(w, word)
    ensures !Partial(w)
  {
    hide Begins, Names, KEEP_ALIVE, CLOSE, UPGRADE;
    Options();
    NamesLong(w, word);
    if word != KEEP_ALIVE { OnlyOne(w, word, KEEP_ALIVE); }
    if word != CLOSE { OnlyOne(w, word, CLOSE); }
    if word != UPGRADE { OnlyOne(w, word, UPGRADE); }
  }

  lemma PartialByte(g: Fields, w: string, ch: char, word: string, stay: HeaderState, hit: HeaderState)
    requires w != "" && word in [KEEP_ALIVE, CLOSE, UPGRADE] && g.hs == stay && Matching(w, word, g.index, 1)
    requires stay == (if word == KEEP_ALIVE then MatchingConnectionKeepAlive
                      else if word == CLOSE then MatchingConnectionClose else MatchingConnectionUpgrade)
    requires hit == (if word == KEEP_ALIVE then ConnectionKeepAlive else if word == CLOSE then ConnectionClose
                     else ConnectionUpgrade)
    requires !IsLineEnd(ch)
    ensures ItemStep(g, w, ch)
  {
    hide Begins, Names, KEEP_ALIVE, CLOSE, UPGRADE, MatchWord, Lower, InWord, IsLineEnd;
    Options();
    OptionChars(|w|);
    NamesMore(w, ch, word);
    NamesLong(w, word);
    ValueWordStep(g, word, w, ch, stay, hit, MatchingConnectionToken);
    LeavesOthers(w, ch, word);
  }

  lemma LeavesOthers(w: string, ch: char, word: string)
    requires w != "" && word in [KEEP_ALIVE, CLOSE, UPGRADE] && |w| < |word| && Begins(w, word)
    ensures !Begins(w + [ch], word) ==> IsOther(w + [ch])
  {
    hide Begins, Names, KEEP_ALIVE, CLOSE, UPGRADE;
    Options();
    NamesMore(w, ch, word);
    NamesLong(w, word);
    if word != KEEP_ALIVE { LeavesOne(w, ch, word, KEEP_ALIVE); }
    if word != CLOSE { LeavesOne(w, ch, word, CLOSE); }
    if word != UPGRADE { LeavesOne(w, ch, word, UPGRADE); }
  }

  lemma LeavesOne(w: string, ch: char, word: string, other: string)
    requires w != "" && word in [KEEP_ALIVE, CLOSE, UPGRADE] && other in [KEEP_ALIVE, CLOSE, UPGRADE] && word != other
    requires Begins(w, word)
    ensures !Begins(w + [ch], other) && !Names(w + [ch], other)
  {
    hide Begins, Names, KEEP_ALIVE, CLOSE, UPGRADE, InWord;
    OnlyOne(w, word, other);
    BeginsMore(w, ch, other);
    NamesMore(w, ch, other);
  }

  /** Each further byte of an item keeps what the matcher's state says. */
  lemma ItemByte(g: Fields, w: string, ch: char)
    requires w != "" && Reads(g.hs, g.index, w) && !IsLineEnd(ch) && (ch != ',' || Partial(w))
    ensures ItemStep(g, w, ch)
  {
    hide Begins, Names, KEEP_ALIVE, CLOSE, UPGRADE, ItemStep, Partial, IsLineEnd;
    Options();
    match g.hs
    case MatchingConnectionKeepAlive => PartialByte(g, w, ch, KEEP_ALIVE, g.hs, ConnectionKeepAlive);
    case MatchingConnectionClose => PartialByte(g, w, ch, CLOSE, g.hs, ConnectionClose);
    case MatchingConnectionUpgrade => PartialByte(g, w, ch, UPGRADE, g.hs, ConnectionUpgrade);
    case ConnectionKeepAlive =>
      NotPartial(w, KEEP_ALIVE);
      OptionByte(g, w, ch, KEEP_ALIVE, g.hs);
    case ConnectionClose =>
      NotPartial(w, CLOSE);
      OptionByte(g, w, ch, CLOSE, g.hs);
    case ConnectionUpgrade =>
      NotPartial(w, UPGRADE);
      OptionByte(g, w, ch, UPGRADE, g.hs);
    case _ => OtherByte(g, w, ch);
  }

  /** An item starts with the value, or behind a comma and spaces. */
  predicate ItemStart(f: Fields, ch: char) {
    (f.state == Header(HeaderValueDiscardWs) && f.hs.HConnection? && ch != ' ' && ch != '\t' && !IsLineEnd(ch)) ||
    (f.state == Header(HeaderValue) && f.hs.MatchingConnectionTokenStart? && f.index == 0 &&
     Token(Lower(ch)) != '\0' && IsValueByte(ch, f.lenient))
  }

  lemma FirstOfItem(f: Fields, ch: char) returns (g: Fields)
    requires ItemStart(f, ch)
    ensures Runs(f, [ch], g, [Byte(Value, ch)]) && g.state == Header(HeaderValue) && Core(g) == Core(f)
    ensures Reads(g.hs, g.index, [ch])
  {
    hide Runs, Lower, Reads, Token;
    if f.state == Header(HeaderValue) {
      g := ValueByte(f, ch).f;
      NextByteRuns(f, ch, g);
      ItemFirst(g, f, ch);
    } else {
      g := ValueStart(f, ch).f;
      FirstByteRuns(f, ch, g);
      ItemFirst(g, To(f, Header(HeaderValue)).(index := 0), ch);
    }
  }

  /** An item is read for what it is. */
  lemma {:induction false} ItemRuns(f: Fields, w: string) returns (g: Fields)
    requires Inv(f) && f.errno == OK && InItem(w) && ItemStart(f, w[0])
    requires forall i :: 1 <= i < |w| ==> IsValueByte(w[i], f.lenient)
    ensures Runs(f, w, g, Bytes(Value, w)) && g.state == Header(HeaderValue) && Core(g) == Core(f)
    ensures Reads(g.hs, g.index, w)
    decreases |w|
  {
    hide Inv, Runs, Reads, IsValueByte, ValueByte, Partial, ItemStart;
    var k, ch := |w| - 1, w[|w| - 1];
    assert w == w[..k] + [ch];
    if k == 0 {
      g := FirstOfItem(f, ch);
      assert w == [ch] && Bytes(Value, w) == [Byte(Value, ch)];
    } else {
      assert InItem(w[..k]) by { assert forall i :: 1 <= i < k ==> w[..k][..i] == w[..i]; }
      var h := ItemRuns(f, w[..k]);
      NotEnd(ch, f.lenient);
      ItemByte(h, w[..k], ch);
      g := ValueByte(h, ch).f;
      NextByteRuns(h, ch, g);
      ValueMore(f, w[..k], h, ch, g);
    }
  }

  // ----- The whole list

  /** The fields with the flags of the listed options. */
  function WithOptions(c: Fields, items: seq<string>): Fields {
    c.(flags := c.flags.(keepAlive := c.flags.keepAlive || Lists(items, KEEP_ALIVE),
                         close := c.flags.close || Lists(items, CLOSE),
                         connectionUpgrade := c.flags.connectionUpgrade || Lists(items, UPGRADE)))
  }

  lemma ListsMore(w: string, items: seq<string>, option: string)
    ensures Lists([w] + items, option) <==> Names(w, option) || Lists(items, option)
    ensures Lists([w], option) <==> Names(w, option)
    ensures !Lists([], option)
  {
    hide Names;
    var all := [w] + items;
    assert all[0] == w && forall i :: 0 <= i < |items| ==> all[i + 1] == items[i];
    assert [w][0] == w;
    if Lists(items, option) {
      var i :| 0 <= i < |items| && Names(items[i], option);
      assert Names(all[i + 1], option);
    }
    if Names(w, option) {
      assert Names(all[0], option) && Names([w][0], option);
    }
  }

  lemma WithMore(c: Fields, w: string, items: seq<string>)
    ensures WithOptions(WithOptions(c, [w]), items) == WithOptions(c, [w] + items)
    ensures WithOptions(WithOptions(c, [w]), []) == WithOptions(c, [w])
  {
    hide Lists, KEEP_ALIVE, CLOSE, UPGRADE;
    ListsMore(w, items, KEEP_ALIVE);
    ListsMore(w, items, CLOSE);
    ListsMore(w, items, UPGRADE);
  }

  /** An item sets its flag where it ends. */
  lemma ItemFinished(h: Fields, w: string)
    requires w != "" && Reads(h.hs, h.index, w)
    ensures Core(Finished(h)) == Core(WithOptions(h, [w]))
  {
    hide Lists, KEEP_ALIVE, CLOSE, UPGRADE, Begins, Names;
    Options();
    ListsMore(w, [], KEEP_ALIVE);
    ListsMore(w, [], CLOSE);
    ListsMore(w, [], UPGRADE);
    OneAtMost(w, KEEP_ALIVE);
    OneAtMost(w, CLOSE);
    OneAtMost(w, UPGRADE);
  }

  lemma OneAtMost(w: string, word: string)
    requires w != "" && word in [KEEP_ALIVE, CLOSE, UPGRADE]
    ensures Begins(w, word) || Names(w, word) ==>
      (word == KEEP_ALIVE || !Names(w, KEEP_ALIVE)) && (word == CLOSE || !Names(w, CLOSE)) &&
      (word == UPGRADE || !Names(w, UPGRADE))
    ensures |w| < |word| ==> !Names(w, word)
  {
    hide KEEP_ALIVE, CLOSE, UPGRADE, Begins, Names;
    NamesLong(w, word);
    if Begins(w, word) || Names(w, word) {
      if word != KEEP_ALIVE { OnlyOne(w, word, KEEP_ALIVE); }
      if word != CLOSE { OnlyOne(w, word, CLOSE); }
      if word != UPGRADE { OnlyOne(w, word, UPGRADE); }
    }
  }

  function BehindComma(h: Fields): Fields { Finished(h).(hs := MatchingConnectionTokenStart, index := 0) }

  lemma CommaRuns(h: Fields, w: string)
    requires h.state == Header(HeaderValue) && w != "" && Reads(h.hs, h.index, w) && !Partial(w)
    ensures Runs(h, ",", BehindComma(h), [Byte(Value, ',')])
  {
    hide Runs, KEEP_ALIVE, CLOSE, UPGRADE, Begins, Names;
    assert IsHeaderChar(',');
    NextByteRuns(h, ',', BehindComma(h));
  }

  lemma {:induction false} SpacesRun(f: Fields, s: string)
    requires Inv(f) && f.errno == OK && f.state == Header(HeaderValue) && f.hs.MatchingConnectionTokenStart?
    requires forall i :: 0 <= i < |s| ==> IsGap(s[i]) && IsValueByte(s[i], f.lenient)
    ensures Runs(f, s, f, Bytes(Value, s))
    decreases |s|
  {
    hide Inv, Runs, IsValueByte, ValueByte;
    if s == "" {
      RunsNothing(f);
      assert Bytes(Value, s) == [];
    } else {
      var k := |s| - 1;
      SpacesRun(f, s[..k]);
      GapByte(f, s[k]);
      NextByteRuns(f, s[k], f);
      ValueMore(f, s[..k], f, s[k], f);
      assert s == s[..k] + [s[k]];
    }
  }

  lemma GapByte(f: Fields, ch: char)
    requires f.hs.MatchingConnectionTokenStart? && IsGap(ch)
    ensures ValueByte(f, ch) == Scanned(f)
  {
  }

  lemma {:induction false} UnspacedIs(v: string)
    ensures var k := |v| - |Unspaced(v)|; v[k..] == Unspaced(v) && forall i :: 0 <= i < k ==> IsGap(v[i])
  {
    if v != "" && IsGap(v[0]) {
      UnspacedIs(v[1..]);
    }
  }

  /** A byte that starts no item ends the list. */
  lemma ListStops(f: Fields, v: string) returns (g: Fields)
    requires Inv(f) && f.errno == OK && f.state == Header(HeaderValue) && f.hs.MatchingConnectionTokenStart?
    requires v != "" && !IsGap(v[0]) && Token(Lower(v[0])) == '\0'
    requires forall i :: 0 <= i < |v| ==> IsValueByte(v[i], f.lenient)
    ensures Runs(f, v, g, Bytes(Value, v)) && g == f.(hs := General)
  {
    hide Inv, Runs, IsValueByte, ValueByte, Token, Lower;
    g := f.(hs := General);
    var first, rest := [v[0]], v[1..];
    NoItem(f, v[0]);
    NextByteRuns(f, v[0], g);
    assert Bytes(Value, first) == [Byte(Value, v[0])];
    RunsInv(f, first, g, Bytes(Value, first));
    assert forall i :: 0 <= i < |rest| ==> rest[i] == v[i + 1];
    GeneralRuns(g, rest);
    JoinValues(f, first, g, rest, g);
    assert v == first + rest;
  }

  lemma NoItem(f: Fields, ch: char)
    requires f.hs.MatchingConnectionTokenStart? && !IsGap(ch) && Token(Lower(ch)) == '\0'
    ensures ValueByte(f, ch) == Scanned(f.(hs := General))
  {
  }

  lemma JoinValues(f: Fields, s: string, g: Fields, t: string, h: Fields)
    requires Inv(f) && f.errno == OK && Runs(f, s, g, Bytes(Value, s)) && Runs(g, t, h, Bytes(Value, t))
    ensures Runs(f, s + t, h, Bytes(Value, s + t)) && Inv(h) && h.errno == OK
  {
    hide Inv, Runs;
    RunsJoin(f, s, g, Bytes(Value, s), t, h, Bytes(Value, t));
    assert Bytes(Value, s + t) == Bytes(Value, s) + Bytes(Value, t);
    RunsInv(f, s + t, h, Bytes(Value, s + t));
  }

  lemma ItemAt(v: string)
    requires v != ""
    ensures var n := ItemEnd(v, 1); InItem(v[..n]) && (n < |v| ==> v[n] == ',' && !Partial(v[..n]))
  {
    hide Partial;
    var n := ItemEnd(v, 1);
    ItemStops(v, 1);
    assert forall i :: 1 <= i < n ==> v[..n][..i] == v[..i];
  }

  lemma {:induction false} ItemStops(v: string, n: nat)
    requires 1 <= n <= |v|
    ensures var r := ItemEnd(v, n); r < |v| ==> !Partial(v[..r])
    decreases |v| - n
  {
    hide Partial;
    if n < |v| && (v[n] != ',' || Partial(v[..n])) {
      ItemStops(v, n + 1);
    }
  }

  lemma SameOptions(f: Fields, h: Fields, w: string, items: seq<string>)
    requires Core(h) == Core(WithOptions(f, [w]))
    ensures Core(WithOptions(h, items)) == Core(WithOptions(f, [w] + items))
    ensures Core(WithOptions(h, [])) == Core(h)
  {
    hide Lists, KEEP_ALIVE, CLOSE, UPGRADE;
    WithMore(f, w, items);
    ListsMore(w, [], KEEP_ALIVE);
    ListsMore(w, [], CLOSE);
    ListsMore(w, [], UPGRADE);
  }

  /** A list of options sets the flags of the options it lists and nothing else. */
  lemma {:induction false} ListRuns(f: Fields, v: string) returns (g: Fields)
    requires Inv(f) && f.errno == OK && v != "" && ItemStart(f, v[0])
    requires forall i :: 1 <= i < |v| ==> IsValueByte(v[i], f.lenient)
    ensures Runs(f, v, g, Bytes(Value, v)) && g.state == Header(HeaderValue)
    ensures Core(Finished(g)) == Core(WithOptions(f, ItemsOf(v)))
    decreases |v|, 0
  {
    hide Inv, Runs, IsValueByte, Token, Lower, Lists, Reads, Finished, Partial, WithOptions, ItemStart, BehindComma,
      Core, MoreItems, Unspaced, InItem;
    var n := ItemEnd(v, 1);
    var w := v[..n];
    ItemAt(v);
    g := ItemRuns(f, w);
    ItemFinished(g, w);
    SameFinished(f, g, w);
    if n == |v| {
      assert v == w;
    } else {
      var h := BehindComma(g);
      var gap, rest := ListText(v, n, f.lenient);
      CommaKeeps(g);
      SameLenient(f, g);
      CommaJoin(f, w, g, gap);
      g := RestRuns(h, rest);
      JoinValues(f, w + "," + gap, h, rest, g);
      SameOptions(f, h, w, MoreItems(rest));
    }
  }

  /** What follows the comma behind an item. */
  lemma ListText(v: string, n: nat, lenient: bool) returns (gap: string, rest: string)
    requires n < |v| && v[n] == ',' && forall i :: 1 <= i < |v| ==> IsValueByte(v[i], lenient)
    ensures rest == Unspaced(v[n + 1..]) && v == v[..n] + "," + gap + rest
    ensures forall i :: 0 <= i < |gap| ==> IsGap(gap[i]) && IsValueByte(gap[i], lenient)
    ensures forall i :: 0 <= i < |rest| ==> IsValueByte(rest[i], lenient)
  {
    hide IsValueByte, IsGap;
    var after := v[n + 1..];
    rest := Unspaced(after);
    UnspacedIs(after);
    var m := |v| - |rest|;
    gap := v[n + 1..m];
    CutText(v, n, m);
    assert rest == after[|after| - |rest|..] == v[m..|v|];
    assert forall i :: 0 <= i < |gap| ==> gap[i] == after[i];
    BytesIn(v, n + 1, m, lenient);
    BytesIn(v, m, |v|, lenient);
  }

  lemma CutText(v: string, n: nat, m: nat)
    requires n < m <= |v| && v[n] == ','
    ensures v == v[..n] + "," + v[n + 1..m] + v[m..|v|]
  {
    assert v[n..n + 1] == ",";
    assert v == v[..n] + v[n..n + 1] + v[n + 1..m] + v[m..|v|];
  }

  lemma BytesIn(v: string, a: nat, b: nat, lenient: bool)
    requires 1 <= a <= b <= |v| && forall i :: 1 <= i < |v| ==> IsValueByte(v[i], lenient)
    ensures forall i :: 0 <= i < |v[a..b]| ==> IsValueByte(v[a..b][i], lenient)
  {
    hide IsValueByte;
    forall i | 0 <= i < |v[a..b]| ensures IsValueByte(v[a..b][i], lenient) {
      assert v[a..b][i] == v[a + i];
    }
  }

  /** The comma behind an item and the spaces behind the comma. */
  lemma CommaJoin(f: Fields, w: string, g: Fields, gap: string)
    requires Inv(f) && f.errno == OK && w != "" && Runs(f, w, g, Bytes(Value, w))
    requires g.state == Header(HeaderValue) && Reads(g.hs, g.index, w) && !Partial(w)
    requires forall i :: 0 <= i < |gap| ==> IsGap(gap[i]) && IsValueByte(gap[i], g.lenient)
    ensures Runs(f, w + "," + gap, BehindComma(g), Bytes(Value, w + "," + gap))
    ensures Inv(BehindComma(g)) && BehindComma(g).errno == OK
  {
    hide Inv, Runs, IsValueByte, Reads, Partial, Finished;
    var h := BehindComma(g);
    CommaRuns(g, w);
    assert Bytes(Value, ",") == [Byte(Value, ',')];
    CommaKeeps(g);
    JoinValues(f, w, g, ",", h);
    SpacesRun(h, gap);
    JoinValues(f, w + ",", h, gap, h);
  }

  lemma SameLenient(f: Fields, g: Fields)
    requires Core(g) == Core(f)
    ensures g.lenient == f.lenient
  {
  }

  lemma SameFinished(f: Fields, g: Fields, w: string)
    requires Core(g) == Core(f)
    ensures Core(WithOptions(g, [w])) == Core(WithOptions(f, [w]))
  {
    hide Lists;
  }

  lemma CommaKeeps(g: Fields)
    ensures var h := BehindComma(g);
      h.hs.MatchingConnectionTokenStart? && h.index == 0 && h.state == g.state && h.lenient == g.lenient &&
      Core(h) == Core(Finished(g))
  {
  }

  lemma {:induction false} RestRuns(h: Fields, rest: string) returns (g: Fields)
    requires Inv(h) && h.errno == OK && h.state == Header(HeaderValue) && h.hs.MatchingConnectionTokenStart?
    requires h.index == 0 && (rest != "" ==> !IsGap(rest[0]))
    requires forall i :: 0 <= i < |rest| ==> IsValueByte(rest[i], h.lenient)
    ensures Runs(h, rest, g, Bytes(Value, rest)) && g.state == Header(HeaderValue)
    ensures Core(Finished(g)) == Core(WithOptions(h, MoreItems(rest)))
    decreases |rest|, 1
  {
    hide Inv, Runs, IsValueByte, Token, Lower, Lists, KEEP_ALIVE, CLOSE, UPGRADE;
    ListsMore("", [], KEEP_ALIVE);
    ListsMore("", [], CLOSE);
    ListsMore("", [], UPGRADE);
    if rest == "" {
      RunsNothing(h);
      g := h;
      assert Bytes(Value, rest) == [];
    } else if Token(Lower(rest[0])) == '\0' {
      g := ListStops(h, rest);
    } else {
      g := ListRuns(h, rest);
    }
  }

  // ----- Well-formed lists

  /** Tokens with a comma and a space between them. */
  function Joined(tokens: seq<string>): string {
    if tokens == [] then "" else if |tokens| == 1 then tokens[0] else tokens[0] + ", " + Joined(tokens[1..])
  }

  predicate IsOption(w: string) { w != "" && (forall i :: 0 <= i < |w| ==> Token(w[i]) != '\0') && !Partial(w) }

  /** An underscore starts no item: in lower case it is DEL. */
  predicate IsList(tokens: seq<string>) {
    (forall i :: 0 <= i < |tokens| ==> IsOption(tokens[i])) && forall i :: 1 <= i < |tokens| ==> tokens[i][0] != '_'
  }

  lemma TokenIsItem(ch: char)
    requires Token(ch) != '\0'
    ensures ch != ',' && !IsGap(ch) && (ch != '_' ==> Token(Lower(ch)) != '\0')
  {
  }

  lemma {:induction false} NoCommaYet(v: string, n: nat, k: nat)
    requires 1 <= n <= k <= |v| && (forall i :: n <= i < k ==> v[i] != ',')
    requires k < |v| ==> v[k] == ',' && !Partial(v[..k])
    ensures ItemEnd(v, n) == k
    decreases k - n
  {
    hide Partial;
    if n < k { NoCommaYet(v, n + 1, k); }
  }

  /** In a well-formed list whose tokens are no proper beginnings of an option the items
      are the tokens, and a token names an option exactly by its letters. */
  lemma {:induction false} ItemsExact(tokens: seq<string>)
    requires tokens != [] && IsList(tokens)
    ensures Joined(tokens) != "" && ItemsOf(Joined(tokens)) == tokens
    ensures Joined(tokens)[0] == tokens[0][0]
    ensures forall i, word :: 0 <= i < |tokens| && word in [KEEP_ALIVE, CLOSE, UPGRADE] ==>
      (Names(tokens[i], word) <==> Like(tokens[i], word))
    decreases |tokens|
  {
    hide Partial, Token, Lower, KEEP_ALIVE, CLOSE, UPGRADE, Names, Begins, Like;
    forall i, word | 0 <= i < |tokens| && word in [KEEP_ALIVE, CLOSE, UPGRADE]
      ensures Names(tokens[i], word) <==> Like(tokens[i], word)
    {
      TokenNames(tokens[i], word);
    }
    var v, w := Joined(tokens), tokens[0];
    if |tokens| == 1 {
      OneItem(w);
      assert tokens == [w];
    } else {
      var rest := tokens[1..];
      assert forall i :: 0 <= i < |rest| ==> rest[i] == tokens[i + 1];
      ItemsExact(rest);
      FirstItem(w, Joined(rest));
      assert tokens == [w] + rest;
    }
  }

  lemma NoCommas(w: string)
    requires IsOption(w)
    ensures forall i :: 0 <= i < |w| ==> w[i] != ','
  {
    hide Token;
    forall i | 0 <= i < |w| ensures w[i] != ',' { TokenIsItem(w[i]); }
  }

  lemma OneItem(w: string)
    requires IsOption(w)
    ensures ItemsOf(w) == [w]
  {
    hide Partial, Token;
    NoCommas(w);
    NoCommaYet(w, 1, |w|);
  }

  lemma FirstItem(w: string, u: string)
    requires IsOption(w) && u != "" && Token(u[0]) != '\0' && u[0] != '_'
    ensures var v := w + ", " + u; ItemsOf(v) == [w] + ItemsOf(u) && v[0] == w[0]
  {
    hide Partial, Token, Lower;
    var v, n := w + ", " + u, |w|;
    NoCommas(w);
    assert v[..n] == w && v[n] == ',' && v[n + 1..] == " " + u && forall i :: 0 <= i < n ==> v[i] == w[i];
    NoCommaYet(v, 1, n);
    TokenIsItem(u[0]);
    SkipsGap(u);
    assert MoreItems(u) == ItemsOf(u);
  }

  lemma SkipsGap(u: string)
    requires u != "" && !IsGap(u[0])
    ensures Unspaced(" " + u) == u
  {
    assert (" " + u)[1..] == u;
  }

  lemma TokenNames(w: string, word: string)
    requires forall i :: 0 <= i < |w| ==> Token(w[i]) != '\0'
    ensures Names(w, word) <==> Like(w, word)
  {
    hide Token, InWord;
    forall i | 0 <= i < |w| ensures w[i] != ' ' { TokenIsItem(w[i]); }
    if |w| == |word| {
      assert w[..|word|] == w;
    } else if |w| > |word| {
      assert w[|word|] != ' ';
    }
  }

  /** Where a token is a proper beginning of an option, the comma behind it separates
      nothing: the list of `k` and `close` closes nothing. */
  lemma BeginningSwallowsComma()
    ensures ItemsOf("k,close") == ["k,close"] && !Lists(ItemsOf("k,close"), CLOSE)
  {
    hide KEEP_ALIVE, CLOSE, UPGRADE;
    var v := "k,close";
    Options();
    assert v[..1] == "k" && "k"[0] == 'k';
    assert Partial("k");
    assert ItemEnd(v, 7) == 7;
    assert ItemEnd(v, 2) == 7;
    assert ItemEnd(v, 1) == 7;
    var items := ItemsOf(v);
    assert !Begins(v[..5], CLOSE) by { assert v[..5][0] == 'k'; }
  }
}
