/** Header lines: what http_parser_execute makes of a name and a value, told from their
    text. */
module HttpHeader {
  import opened HttpTypes
  import opened HttpStep
  import opened HttpRun
  import opened HttpCutting
  import opened HttpJoin

  // ----- Single bytes

  lemma RunsByte(f: Fields, ch: char)
    requires Passes(f, ch)
    ensures var c := RunSwitch(f, Marks(InitialMark(f.state), 0, []), ch, false);
      c.end == More ==> Runs(f, [ch], c.f, EndByte(c.m, ch).evs)
  {
    hide Switch, InGeneral, InitialMark, RunSwitch;
    BeginMore(f, [ch]);
    SingleStep(f, [ch], 0);
  }

  /** A byte behind a mark, or one that sets it. */
  lemma RunsData(f: Fields, ch: char, h: Fields, k: DataKind)
    requires Passes(f, ch)
    requires (Switch(f, ch, false) == Next(h, NOTHING) && InitialMark(f.state) == Some(k)) ||
      (Switch(f, ch, false) == Next(h, Marking(k)) && InitialMark(f.state).None?)
    ensures Runs(f, [ch], h, [Byte(k, ch)])
  {
    hide Switch, InGeneral, InitialMark, Runs;
    RunsByte(f, ch);
    assert [] + [Byte(k, ch)] == [Byte(k, ch)];
  }

  /** A byte that delivers nothing. */
  lemma RunsQuiet(f: Fields, ch: char, h: Fields)
    requires Passes(f, ch)
    requires var s := Switch(f, ch, false);
      s.Next? && s.f == h && s.act.note.None? && !s.act.plus && s.act.mark.None? &&
      (InitialMark(f.state).None? || s.act.flush == InitialMark(f.state))
    ensures Runs(f, [ch], h, [])
  {
    hide Switch, InGeneral, InitialMark, Runs;
    RunsByte(f, ch);
  }

  // ----- Words, in any letter case

  predicate InWord(ch: char, w: char) { ch == w || ('a' <= w <= 'z' && (ch as int) + 32 == (w as int)) }

  /** s is the beginning of a word, or the whole word. */
  predicate Begins(s: string, word: string) {
    |s| <= |word| && forall i :: 0 <= i < |s| ==> InWord(s[i], word[i])
  }

  predicate Like(s: string, word: string) { |s| == |word| && Begins(s, word) }

  predicate IsName(name: string) { name != "" && forall i :: 0 <= i < |name| ==> Token(name[i]) != '\0' }

  const CONNECTION: string := "connection"
  const PROXY_CONNECTION: string := "proxy-connection"
  const CONTENT_LENGTH: string := "content-length"
  const TRANSFER_ENCODING: string := "transfer-encoding"
  const UPGRADE: string := "upgrade"

  predicate IsWordChar(w: char) { 'a' <= w <= 'z' || w == '-' }

  lemma TokenIs(ch: char, w: char)
    requires IsWordChar(w)
    ensures Token(ch) == w <==> InWord(ch, w)
  {
  }

  lemma WordChars(i: nat)
    ensures i < |CONNECTION| ==> IsWordChar(CONNECTION[i])
    ensures i < |PROXY_CONNECTION| ==> IsWordChar(PROXY_CONNECTION[i])
    ensures i < |CONTENT_LENGTH| ==> IsWordChar(CONTENT_LENGTH[i])
    ensures i < |TRANSFER_ENCODING| ==> IsWordChar(TRANSFER_ENCODING[i])
    ensures i < |UPGRADE| ==> IsWordChar(UPGRADE[i])
  {
  }

  lemma BeginsMore(s: string, ch: char, word: string)
    ensures Begins(s + [ch], word) <==> Begins(s, word) && |s| < |word| && InWord(ch, word[|s|])
  {
    hide InWord;
    var t := s + [ch];
    assert t[|s|] == ch && forall i :: 0 <= i < |s| ==> t[i] == s[i];
  }

  /** None of the names the parser knows begins like that. */
  predicate Unknown(w: string) {
    !Begins(w, CONNECTION) && !Begins(w, PROXY_CONNECTION) && !Begins(w, CONTENT_LENGTH) &&
    !Begins(w, TRANSFER_ENCODING) && !Begins(w, UPGRADE)
  }

  predicate Matching(w: string, word: string, index: nat, from: nat) {
    from <= |w| < |word| && Begins(w, word) && index + 1 == |w|
  }

  /** What the state of the name matcher says about the bytes of the name so far. */
  predicate Named(hs: HeaderState, index: nat, w: string) {
    match hs
    case General => Unknown(w)
    case HC => |w| == 1 && Matching(w, CONNECTION, index, 1)
    case HCO => |w| == 2 && Matching(w, CONNECTION, index, 1)
    case HCON => |w| == 3 && Matching(w, CONNECTION, index, 1)
    case MatchingConnection => Matching(w, CONNECTION, index, 4)
    case MatchingContentLength => Matching(w, CONTENT_LENGTH, index, 4)
    case MatchingProxyConnection => Matching(w, PROXY_CONNECTION, index, 1)
    case MatchingTransferEncoding => Matching(w, TRANSFER_ENCODING, index, 1)
    case MatchingUpgrade => Matching(w, UPGRADE, index, 1)
    case HConnection => Like(w, CONNECTION) || Like(w, PROXY_CONNECTION)
    case HContentLength => Like(w, CONTENT_LENGTH)
    case HTransferEncoding => Like(w, TRANSFER_ENCODING)
    case HUpgrade => Like(w, UPGRADE)
    case _ => false
  }

  lemma FirstLike(w: string, word: string)
    requires w != "" && Begins(w, word)
    ensures InWord(w[0], word[0]) && (|w| > 3 ==> InWord(w[3], word[3]))
  {
  }

  lemma OneWord(ch: char, a: char, b: char)
    requires IsWordChar(a) && IsWordChar(b) && a != b
    ensures !(InWord(ch, a) && InWord(ch, b))
  {
  }

  lemma FirstChars()
    ensures CONNECTION[0] == 'c' && CONTENT_LENGTH[0] == 'c' && PROXY_CONNECTION[0] == 'p'
    ensures TRANSFER_ENCODING[0] == 't' && UPGRADE[0] == 'u' && CONNECTION[3] == 'n' && CONTENT_LENGTH[3] == 't'
    ensures |CONNECTION| == 10 && |CONTENT_LENGTH| == 14 && |PROXY_CONNECTION| == 16 && |TRANSFER_ENCODING| == 17
    ensures |UPGRADE| == 7 && CONNECTION[1] == CONTENT_LENGTH[1] == 'o' && CONNECTION[2] == CONTENT_LENGTH[2] == 'n'
  {
  }

  lemma Spelled()
    ensures CONNECTION == "connection" && PROXY_CONNECTION == "proxy-connection" && UPGRADE == "upgrade"
    ensures CONTENT_LENGTH == "content-length" && TRANSFER_ENCODING == "transfer-encoding"
  {
  }

  lemma Different(w: string, u: string, v: string)
    requires w != "" && u != "" && v != "" && IsWordChar(u[0]) && IsWordChar(v[0]) && u[0] != v[0]
    ensures !(Begins(w, u) && Begins(w, v))
  {
    hide Begins, InWord, IsWordChar;
    if Begins(w, u) && Begins(w, v) {
      FirstLike(w, u);
      FirstLike(w, v);
      OneWord(w[0], u[0], v[0]);
    }
  }

  /** The known names part at their first byte, or at their fourth. */
  lemma Apart(w: string)
    requires w != ""
    ensures Begins(w, PROXY_CONNECTION) ==>
      !Begins(w, CONNECTION) && !Begins(w, CONTENT_LENGTH) && !Begins(w, TRANSFER_ENCODING) && !Begins(w, UPGRADE)
    ensures Begins(w, TRANSFER_ENCODING) ==> !Begins(w, CONNECTION) && !Begins(w, CONTENT_LENGTH) && !Begins(w, UPGRADE)
    ensures Begins(w, UPGRADE) ==> !Begins(w, CONNECTION) && !Begins(w, CONTENT_LENGTH)
    ensures |w| > 3 ==> !(Begins(w, CONNECTION) && Begins(w, CONTENT_LENGTH))
    ensures |w| <= 3 ==> (Begins(w, CONNECTION) <==> Begins(w, CONTENT_LENGTH))
  {
    hide Begins, InWord, CONNECTION, PROXY_CONNECTION, CONTENT_LENGTH, TRANSFER_ENCODING, UPGRADE;
    FirstChars();
    Different(w, PROXY_CONNECTION, CONNECTION);
    Different(w, PROXY_CONNECTION, CONTENT_LENGTH);
    Different(w, PROXY_CONNECTION, TRANSFER_ENCODING);
    Different(w, PROXY_CONNECTION, UPGRADE);
    Different(w, TRANSFER_ENCODING, CONNECTION);
    Different(w, TRANSFER_ENCODING, CONTENT_LENGTH);
    Different(w, TRANSFER_ENCODING, UPGRADE);
    Different(w, UPGRADE, CONNECTION);
    Different(w, UPGRADE, CONTENT_LENGTH);
    AtFourth(w);
  }

  lemma AtFourth(w: string)
    ensures |w| > 3 ==> !(Begins(w, CONNECTION) && Begins(w, CONTENT_LENGTH))
    ensures |w| <= 3 ==> (Begins(w, CONNECTION) <==> Begins(w, CONTENT_LENGTH))
  {
    hide InWord, CONNECTION, CONTENT_LENGTH;
    FirstChars();
    if |w| > 3 && Begins(w, CONNECTION) && Begins(w, CONTENT_LENGTH) {
      FirstLike(w, CONNECTION);
      FirstLike(w, CONTENT_LENGTH);
      OneWord(w[3], 'n', 't');
    }
  }

  lemma WordStep(g: Fields, word: string, w: string, ch: char, stay: HeaderState, hit: HeaderState, miss: HeaderState)
    requires w != "" && |w| < |word| <= 17 && g.index + 1 == |w| && Begins(w, word) && IsWordChar(word[|w|])
    ensures var h := MatchWord(g, word, Token(ch), stay, hit, miss);
      h == g.(hs := h.hs, index := |w|) &&
      h.hs == if !Begins(w + [ch], word) then miss else if |w| + 1 == |word| then hit else stay
  {
    hide Token, InWord;
    BeginsMore(w, ch, word);
    TokenIs(ch, word[|w|]);
  }

  lemma BeginsNext(w: string, ch: char)
    requires w != ""
    ensures Begins(w + [ch], CONNECTION) ==> Begins(w, CONNECTION)
    ensures Begins(w + [ch], PROXY_CONNECTION) ==> Begins(w, PROXY_CONNECTION)
    ensures Begins(w + [ch], CONTENT_LENGTH) ==> Begins(w, CONTENT_LENGTH)
    ensures Begins(w + [ch], TRANSFER_ENCODING) ==> Begins(w, TRANSFER_ENCODING)
    ensures Begins(w + [ch], UPGRADE) ==> Begins(w, UPGRADE)
    ensures !Like(w, CONTENT_LENGTH) || !Begins(w + [ch], CONTENT_LENGTH)
  {
    hide InWord, Begins, CONNECTION, PROXY_CONNECTION, CONTENT_LENGTH, TRANSFER_ENCODING, UPGRADE;
    BeginsMore(w, ch, CONNECTION);
    BeginsMore(w, ch, PROXY_CONNECTION);
    BeginsMore(w, ch, CONTENT_LENGTH);
    BeginsMore(w, ch, TRANSFER_ENCODING);
    BeginsMore(w, ch, UPGRADE);
  }

  predicate NameStep(g: Fields, w: string, ch: char) {
    var r := FieldByte(g, ch);
    r.Some? && r.value == g.(hs := r.value.hs, index := r.value.index) && Named(r.value.hs, r.value.index, w + [ch])
  }

  lemma EarlyByte(g: Fields, w: string, ch: char)
    requires Named(g.hs, g.index, w) && (g.hs.HC? || g.hs.HCO? || g.hs.HCON?)
    ensures NameStep(g, w, ch)
  {
    hide Token, InWord, Begins, MatchWord, CONNECTION, PROXY_CONNECTION, CONTENT_LENGTH, TRANSFER_ENCODING, UPGRADE;
    Apart(w);
    Apart(w + [ch]);
    BeginsNext(w, ch);
    FirstChars();
    BeginsMore(w, ch, CONNECTION);
    BeginsMore(w, ch, CONTENT_LENGTH);
    TokenIs(ch, 'o');
    TokenIs(ch, 'n');
    TokenIs(ch, 't');
  }

  /** What a further byte makes of a name that has begun like a known one. */
  lemma Onward(w: string, ch: char, word: string)
    requires |w| > 3 || !Begins(w, CONTENT_LENGTH) || !Begins(w, CONNECTION)
    requires w != "" && word in [CONNECTION, PROXY_CONNECTION, CONTENT_LENGTH, TRANSFER_ENCODING, UPGRADE]
    requires Begins(w, word) && !Begins(w + [ch], word)
    ensures Unknown(w + [ch])
  {
    hide Begins, InWord, CONNECTION, PROXY_CONNECTION, CONTENT_LENGTH, TRANSFER_ENCODING, UPGRADE;
    Apart(w);
    BeginsNext(w, ch);
  }

  lemma MatchingByte(g: Fields, w: string, ch: char)
    requires w != "" && Named(g.hs, g.index, w)
    requires g.hs.MatchingConnection? || g.hs.MatchingProxyConnection? || g.hs.MatchingContentLength? ||
      g.hs.MatchingTransferEncoding? || g.hs.MatchingUpgrade?
    ensures NameStep(g, w, ch)
  {
    hide Token, InWord, Begins, MatchWord, Unknown, CONNECTION, PROXY_CONNECTION, CONTENT_LENGTH, TRANSFER_ENCODING,
      UPGRADE;
    FirstChars();
    Spelled();
    Apart(w);
    WordChars(|w|);
    var word, hit := WordOf(g.hs);
    WordStep(g, word, w, ch, g.hs, hit, General);
    if !Begins(w + [ch], word) { Onward(w, ch, word); }
  }

  lemma WordOf(hs: HeaderState) returns (word: string, hit: HeaderState)
    ensures match hs
      case MatchingConnection => word == CONNECTION && hit == HConnection
      case MatchingProxyConnection => word == PROXY_CONNECTION && hit == HConnection
      case MatchingContentLength => word == CONTENT_LENGTH && hit == HContentLength
      case MatchingTransferEncoding => word == TRANSFER_ENCODING && hit == HTransferEncoding
      case MatchingUpgrade => word == UPGRADE && hit == HUpgrade
      case _ => true
  {
    hide CONNECTION, PROXY_CONNECTION, CONTENT_LENGTH, TRANSFER_ENCODING, UPGRADE;
    match hs
    case MatchingConnection => word, hit := CONNECTION, HConnection;
    case MatchingProxyConnection => word, hit := PROXY_CONNECTION, HConnection;
    case MatchingContentLength => word, hit := CONTENT_LENGTH, HContentLength;
    case MatchingTransferEncoding => word, hit := TRANSFER_ENCODING, HTransferEncoding;
    case _ => word, hit := UPGRADE, HUpgrade;
  }

  /** Each further byte of a name keeps what the matcher's state says. */
  lemma NameByte(g: Fields, w: string, ch: char)
    requires w != "" && Named(g.hs, g.index, w) && Token(ch) != '\0'
    ensures NameStep(g, w, ch)
  {
    hide Token, InWord, Begins, MatchWord, CONNECTION, PROXY_CONNECTION, CONTENT_LENGTH, TRANSFER_ENCODING, UPGRADE;
    match g.hs
    case HC | HCO | HCON => EarlyByte(g, w, ch);
    case MatchingConnection | MatchingProxyConnection | MatchingContentLength | MatchingTransferEncoding
      | MatchingUpgrade => MatchingByte(g, w, ch);
    case _ =>
      NoSpace(ch);
      FirstChars();
      Apart(w);
      BeginsNext(w, ch);
      BeginsMore(w, ch, CONNECTION);
      BeginsMore(w, ch, PROXY_CONNECTION);
      BeginsMore(w, ch, TRANSFER_ENCODING);
      BeginsMore(w, ch, UPGRADE);
  }

  lemma NoSpace(ch: char)
    requires Token(ch) != '\0'
    ensures ch != ' ' && ch != ':' && ch != '\r' && ch != '\n' && ch != '\t'
  {
  }

  lemma BeginsOne(ch: char, word: string)
    requires word != "" && IsWordChar(word[0])
    ensures Begins([ch], word) <==> Token(ch) == word[0]
  {
    hide Token, InWord;
    TokenIs(ch, word[0]);
    assert [ch][0] == ch;
  }

  lemma FirstNamed(f: Fields, ch: char)
    requires f.state == Header(HeaderFieldStart) && Token(ch) != '\0'
    ensures var s := Switch(f, ch, false);
      s.Next? && s.act == Marking(Field) && s.f.state == Header(HeaderField) && Core(s.f) == Core(f) &&
      Named(s.f.hs, s.f.index, [ch])
  {
    hide Token, Begins, CONNECTION, PROXY_CONNECTION, CONTENT_LENGTH, TRANSFER_ENCODING, UPGRADE;
    NoSpace(ch);
    FirstChars();
    BeginsOne(ch, CONNECTION);
    BeginsOne(ch, PROXY_CONNECTION);
    BeginsOne(ch, CONTENT_LENGTH);
    BeginsOne(ch, TRANSFER_ENCODING);
    BeginsOne(ch, UPGRADE);
  }

  /** The fields that outlast a header line: without the state and the matcher's. */
  function Core(f: Fields): Fields { f.(state := Header(HeaderFieldStart), hs := General, index := 0) }

  /** A name is delivered whole, and recognised exactly if it is one the parser knows. */
  lemma {:induction false} NameRuns(f: Fields, name: string) returns (g: Fields)
    requires Inv(f) && f.errno == OK && f.state == Header(HeaderFieldStart) && IsName(name)
    ensures Runs(f, name, g, Bytes(Field, name)) && g.state == Header(HeaderField) && Core(g) == Core(f)
    ensures Named(g.hs, g.index, name) && Inv(g) && g.errno == OK
    decreases |name|
  {
    hide Inv, Runs, Switch, Token, Named, FieldByte;
    var k := |name| - 1;
    var ch := name[k];
    assert name == name[..k] + [ch];
    if k == 0 {
      FirstNamed(f, ch);
      g := Switch(f, ch, false).f;
      RunsData(f, ch, g, Field);
      assert Bytes(Field, name) == [Byte(Field, ch)] && name == [ch];
      RunsInv(f, name, g, Bytes(Field, name));
    } else {
      var h := NameRuns(f, name[..k]);
      NameByte(h, name[..k], ch);
      g := FieldByte(h, ch).value;
      FieldSwitchIs(h, ch);
      RunsData(h, ch, g, Field);
      RunsJoin(f, name[..k], h, Bytes(Field, name[..k]), [ch], g, [Byte(Field, ch)]);
      assert Bytes(Field, name) == Bytes(Field, name[..k]) + [Byte(Field, ch)];
      RunsInv(f, name, g, Bytes(Field, name));
    }
  }

  lemma FieldSwitchIs(h: Fields, ch: char)
    requires h.state == Header(HeaderField) && Token(ch) != '\0' && FieldByte(h, ch).Some?
    ensures Switch(h, ch, false) == Next(FieldByte(h, ch).value, NOTHING)
  {
    hide FieldByte, Token;
  }
}
