/** The conventions both IMAP sides share: message ids, flags, cursors, source references. */
module MailConventions {
  import opened Outcomes
  import opened Sequences
  import opened Text

  // ----- the two Message-ID conventions -----

  function StripBrackets(s: string): (r: string)
    ensures forall i :: 0 <= i < |r| ==> r[i] != '<' && r[i] != '>'
  {
    if s == "" then ""
    else if s[0] == '<' || s[0] == '>' then StripBrackets(s[1..])
    else [s[0]] + StripBrackets(s[1..])
  }

  /** The form both sides of every comparison on the target use. */
  function NormaliseKey(value: string): string {
    Trim(StripBrackets(value))
  }

  /** An ENVELOPE's message-id as the source's key, brackets included. */
  function MessageIdFromEnvelope(raw: Option<string>): Option<string> {
    match raw
    case None => None
    case Some(v) =>
      if v == "" then None
      else if v[0] == '<' && v[|v| - 1] == '>' then Some(v)
      else Some("<" + v + ">")
  }

  /** The writer's own scan: `captured` is what follows `Message-ID:` in the bytes, if anything does. */
  function ExtractMessageId(captured: Option<string>): Option<string> {
    match captured
    case None => None
    case Some(h) => var s := StripBrackets(Trim(h)); if s == "" then None else Some(s)
  }

  lemma {:induction false} StripAppend(a: string, b: string)
    ensures StripBrackets(a + b) == StripBrackets(a) + StripBrackets(b)
  {
    if a == "" {
      assert a + b == b;
    } else {
      assert (a + b)[1..] == a[1..] + b;
      StripAppend(a[1..], b);
    }
  }

  lemma {:induction false} StripPlain(s: string)
    requires forall i :: 0 <= i < |s| ==> s[i] != '<' && s[i] != '>'
    ensures StripBrackets(s) == s
  {
    if s != "" { StripPlain(s[1..]); }
  }

  lemma {:induction false} TrimStartSpace(s: string, t: string)
    requires forall i :: 0 <= i < |s| ==> IsSpace(s[i])
    ensures TrimStart(s + t) == TrimStart(t)
  {
    if s == "" {
      assert s + t == t;
    } else {
      assert (s + t)[1..] == s[1..] + t;
      TrimStartSpace(s[1..], t);
    }
  }

  lemma {:induction false} TrimEndSpace(t: string, s: string)
    requires forall i :: 0 <= i < |s| ==> IsSpace(s[i])
    ensures TrimEnd(t + s) == TrimEnd(t)
  {
    if s == "" {
      assert t + s == t;
    } else {
      assert (t + s)[..|t + s| - 1] == t + s[..|s| - 1];
      TrimEndSpace(t, s[..|s| - 1]);
    }
  }

  /** White space around a string does not matter to `Trim`. */
  lemma TrimPadded(a: string, t: string, b: string)
    requires forall i :: 0 <= i < |a| ==> IsSpace(a[i])
    requires forall i :: 0 <= i < |b| ==> IsSpace(b[i])
    ensures Trim(a + t + b) == Trim(t)
  {
    assert a + t + b == a + (t + b);
    TrimStartSpace(a, t + b);
    TrimStartTail(t, b);
  }

  lemma {:induction false} TrimStartTail(t: string, b: string)
    requires forall i :: 0 <= i < |b| ==> IsSpace(b[i])
    ensures TrimEnd(TrimStart(t + b)) == TrimEnd(TrimStart(t))
  {
    if t == "" {
      assert t + b == b + "";
      TrimStartSpace(b, "");
    } else if IsSpace(t[0]) {
      assert (t + b)[1..] == t[1..] + b;
      TrimStartTail(t[1..], b);
    } else {
      TrimEndSpace(t, b);
    }
  }

  lemma {:induction false} SplitStart(s: string) returns (pad: string)
    ensures s == pad + TrimStart(s)
    ensures forall i :: 0 <= i < |pad| ==> IsSpace(pad[i])
  {
    if s != "" && IsSpace(s[0]) {
      var rest := SplitStart(s[1..]);
      pad := [s[0]] + rest;
    } else {
      pad := "";
    }
  }

  lemma {:induction false} SplitEnd(s: string) returns (pad: string)
    ensures s == TrimEnd(s) + pad
    ensures forall i :: 0 <= i < |pad| ==> IsSpace(pad[i])
  {
    if s != "" && IsSpace(s[|s| - 1]) {
      var rest := SplitEnd(s[..|s| - 1]);
      pad := rest + [s[|s| - 1]];
    } else {
      pad := "";
    }
  }

  lemma {:induction false} StripsToNothing(s: string)
    ensures StripBrackets(s) == "" <==> forall i :: 0 <= i < |s| ==> s[i] == '<' || s[i] == '>'
  {
    if s != "" {
      StripsToNothing(s[1..]);
      assert forall i :: 1 <= i < |s| ==> s[i] == s[1..][i - 1];
    }
  }

  lemma TrimsToNothing(s: string)
    ensures Trim(s) == "" <==> forall i :: 0 <= i < |s| ==> IsSpace(s[i])
  {
    var a := SplitStart(s);
    var b := SplitEnd(TrimStart(s));
    var t := Trim(s);
    assert s == a + t + b;
    if t == "" {
      assert TrimStart(s) == "" && s == a;
    } else {
      assert s[|a|] == t[0];
    }
  }

  lemma HeaderParts(h: string) returns (a: string, b: string)
    ensures h == a + Trim(h) + b
    ensures forall i :: 0 <= i < |a| ==> IsSpace(a[i])
    ensures forall i :: 0 <= i < |b| ==> IsSpace(b[i])
    ensures var s := StripBrackets(Trim(h)); ExtractMessageId(Some(h)) == if s == "" then None else Some(s)
  {
    a := SplitStart(h);
    b := SplitEnd(TrimStart(h));
  }

  /**
   * The id the writer extracts and the id the server reports normalise alike, when they are
   * one text. None is extracted exactly when the trimmed text is brackets only; white space
   * between brackets is extracted as an id, and those are the ids whose key is empty.
   */
  lemma ExtractNormalises(h: string)
    ensures ExtractMessageId(Some(h)).None? <==> forall i :: 0 <= i < |Trim(h)| ==> Trim(h)[i] == '<' || Trim(h)[i] == '>'
    ensures ExtractMessageId(Some(h)).Some? ==>
              var id := ExtractMessageId(Some(h)).value;
              && NormaliseKey(id) == NormaliseKey(h)
              && (NormaliseKey(id) == "" <==> forall i :: 0 <= i < |id| ==> IsSpace(id[i]))
  {
    hide StripBrackets, TrimStart, TrimEnd, Trim, ExtractMessageId;
    var a, b := HeaderParts(h);
    var t := Trim(h);
    StripAppend(a + t, b);
    StripAppend(a, t);
    StripPlain(a);
    StripPlain(b);
    TrimPadded(a, StripBrackets(t), b);
    StripPlain(StripBrackets(t));
    StripsToNothing(t);
    TrimsToNothing(StripBrackets(t));
  }

  /** Such an id: a space between brackets. */
  lemma BlankIdIsExtracted()
    ensures ExtractMessageId(Some("< >")) == Some(" ") && NormaliseKey(" ") == ""
  {
    var h := "< >";
    assert Trim(h) == h by { TrimmedIsFixed(h); }
    assert h[1..] == " >" && h[1..][1..] == ">" && h[1..][1..][1..] == "";
    assert StripBrackets(h[1..][1..]) == "";
    assert StripBrackets(h[1..]) == [' '] + "";
    StripPlain(" ");
    TrimsToNothing(" ");
  }

  /** Bracketed for the source or bare for the target, an id normalises to the same key. */
  lemma EnvelopeNormalises(v: string)
    requires v != ""
    ensures MessageIdFromEnvelope(Some(v)).Some?
    ensures NormaliseKey(MessageIdFromEnvelope(Some(v)).value) == NormaliseKey(v)
  {
    StripAppend("<" + v, ">");
    StripAppend("<", v);
    assert StripBrackets("<") == "" by { assert "<"[1..] == ""; }
    assert StripBrackets(">") == "" by { assert ">"[1..] == ""; }
    assert StripBrackets("<" + v + ">") == StripBrackets(v);
  }

  lemma {:induction false} TrimKeepsPlain(s: string)
    requires forall i :: 0 <= i < |s| ==> s[i] != '<' && s[i] != '>'
    ensures forall i :: 0 <= i < |Trim(s)| ==> Trim(s)[i] != '<' && Trim(s)[i] != '>'
  {
    var a := SplitStart(s);
    var b := SplitEnd(TrimStart(s));
    assert forall i :: 0 <= i < |Trim(s)| ==> Trim(s)[i] == s[|a| + i];
  }

  /** Normalising twice changes nothing, so a recorded key finds what the key was recorded from. */
  lemma NormaliseIdempotent(v: string)
    ensures NormaliseKey(NormaliseKey(v)) == NormaliseKey(v)
  {
    TrimKeepsPlain(StripBrackets(v));
    StripPlain(NormaliseKey(v));
    TrimmedIsFixed(NormaliseKey(v));
  }

  /** An id is its own key exactly when it has no brackets in it and no white space around it. */
  lemma OwnKeyExactly(v: string)
    ensures NormaliseKey(v) == v <==>
              && (forall i :: 0 <= i < |v| ==> v[i] != '<' && v[i] != '>')
              && (v == "" || (!IsSpace(v[0]) && !IsSpace(v[|v| - 1])))
  {
    if (forall i :: 0 <= i < |v| ==> v[i] != '<' && v[i] != '>') && (v == "" || (!IsSpace(v[0]) && !IsSpace(v[|v| - 1]))) {
      StripPlain(v);
      TrimmedIsFixed(v);
    }
    TrimKeepsPlain(StripBrackets(v));
  }

  // ----- flags -----

  datatype Keyword = Seen | Flagged | Draft | Answered

  function KeywordToFlag(k: Keyword): string {
    match k
    case Seen => "\\Seen"
    case Flagged => "\\Flagged"
    case Draft => "\\Draft"
    case Answered => "\\Answered"
  }

  function LowerChar(c: char): char {
    if 'A' <= c <= 'Z' then c + 32 as char else c
  }

  function Lower(s: string): string {
    seq(|s|, i requires 0 <= i < |s| => LowerChar(s[i]))
  }

  function FlagToKeyword(flag: string): Option<Keyword> {
    var lower := Lower(flag);
    if lower == "\\seen" then Some(Seen)
    else if lower == "\\flagged" then Some(Flagged)
    else if lower == "\\draft" then Some(Draft)
    else if lower == "\\answered" then Some(Answered)
    else None
  }

  function KeywordsOf(flags: seq<string>): seq<Keyword> {
    if flags == [] then []
    else
      var last := FlagToKeyword(flags[|flags| - 1]);
      KeywordsOf(flags[..|flags| - 1]) + (if last.Some? then [last.value] else [])
  }

  function FlagsOf(keywords: seq<Keyword>): seq<string> {
    seq(|keywords|, i requires 0 <= i < |keywords| => KeywordToFlag(keywords[i]))
  }

  method MapImapFlagsToKeywords(flags: seq<string>) returns (keywords: seq<Keyword>)
    ensures keywords == KeywordsOf(flags)
  {
    keywords := [];
    for i := 0 to |flags|
      invariant keywords == KeywordsOf(flags[..i])
    {
      assert flags[..i + 1][..i] == flags[..i];
      var lower := Lower(flags[i]);
      if lower == "\\seen" {
        keywords := keywords + [Seen];
      } else if lower == "\\flagged" {
        keywords := keywords + [Flagged];
      } else if lower == "\\draft" {
        keywords := keywords + [Draft];
      } else if lower == "\\answered" {
        keywords := keywords + [Answered];
      }
    }
    assert flags[..|flags|] == flags;
  }

  lemma KeywordFlag(k: Keyword)
    ensures FlagToKeyword(KeywordToFlag(k)) == Some(k)
  {
    match k
    case Seen => assert Lower("\\Seen") == "\\seen";
    case Flagged => assert Lower("\\Flagged") == "\\flagged";
    case Draft => assert Lower("\\Draft") == "\\draft";
    case Answered => assert Lower("\\Answered") == "\\answered";
  }

  /** The write table and the read table are inverses: no keyword is lost on the way over. */
  lemma {:induction false} FlagRoundTrip(keywords: seq<Keyword>)
    ensures KeywordsOf(FlagsOf(keywords)) == keywords
  {
    hide FlagToKeyword, KeywordToFlag;
    if keywords != [] {
      var n := |keywords| - 1;
      FlagRoundTrip(keywords[..n]);
      KeywordFlag(keywords[n]);
      assert FlagsOf(keywords)[..n] == FlagsOf(keywords[..n]);
      assert keywords == keywords[..n] + [keywords[n]];
    }
  }

  /** A flag that stands for a keyword, in any spelling of upper and lower case. */
  predicate IsKeywordFlag(flag: string) {
    Lower(flag) in {"\\seen", "\\flagged", "\\draft", "\\answered"}
  }

  /** The keywords of a message are those its flags stand for, in their order; other flags stand for none. */
  lemma {:induction false} KeywordsExactly(flags: seq<string>) returns (at: seq<nat>)
    ensures Picks(flags, (f: string) => IsKeywordFlag(f), at)
    ensures |KeywordsOf(flags)| == |at|
    ensures forall k :: 0 <= k < |at| ==>
              var keyword, flag := KeywordsOf(flags)[k], Lower(flags[at[k]]);
              && (keyword == Seen <==> flag == "\\seen") && (keyword == Flagged <==> flag == "\\flagged")
              && (keyword == Draft <==> flag == "\\draft") && (keyword == Answered <==> flag == "\\answered")
  {
    hide Lower;
    PicksNothing((f: string) => IsKeywordFlag(f));
    hide Picks;
    at := [];
    if flags != [] {
      var before, last := flags[..|flags| - 1], flags[|flags| - 1];
      var earlier := KeywordsExactly(before);
      assert flags == before + [last];
      PicksSnoc(before, last, (f: string) => IsKeywordFlag(f), earlier);
      at := OneMore(before, last, (f: string) => IsKeywordFlag(f), earlier);
    }
  }

  predicate IsTrashAttribute(a: string) {
    Lower(a) == "\\trash" || Lower(a) == "\\deleted"
  }

  predicate IsOtherRole(a: string) {
    Lower(a) in {"\\inbox", "\\sent", "\\drafts", "\\archive", "\\junk", "\\spam"}
  }

  /** `mapImapSpecialUse(attributes) === 'trash'`: the first attribute that names a role names this one. */
  predicate IsTrash(attributes: seq<string>) {
    attributes != []
    && (IsTrashAttribute(attributes[0]) || (!IsOtherRole(attributes[0]) && IsTrash(attributes[1..])))
  }

  /** The roles an attribute may name. */
  predicate NamesRole(a: string) {
    Lower(a) in {"\\inbox", "\\sent", "\\drafts", "\\archive", "\\junk", "\\spam", "\\trash", "\\deleted"}
  }

  /** The first attribute that names a role names the trash. */
  predicate FirstRoleIsTrash(attributes: seq<string>) {
    exists i :: 0 <= i < |attributes| && Lower(attributes[i]) in {"\\trash", "\\deleted"}
      && forall j :: 0 <= j < i ==> !NamesRole(attributes[j])
  }

  lemma {:induction false} TrashExactly(attributes: seq<string>)
    ensures IsTrash(attributes) <==> FirstRoleIsTrash(attributes)
  {
    hide Lower;
    if attributes != [] {
      var first, rest := attributes[0], attributes[1..];
      TrashExactly(rest);
      if FirstRoleIsTrash(attributes) {
        var i :| 0 <= i < |attributes| && Lower(attributes[i]) in {"\\trash", "\\deleted"}
          && forall j :: 0 <= j < i ==> !NamesRole(attributes[j]);
        if i > 0 {
          assert !NamesRole(attributes[0]);
          assert rest[i - 1] == attributes[i];
          assert forall j :: 0 <= j < i - 1 ==> rest[j] == attributes[j + 1];
        }
      }
      if FirstRoleIsTrash(rest) && !NamesRole(first) {
        var i :| 0 <= i < |rest| && Lower(rest[i]) in {"\\trash", "\\deleted"}
          && forall j :: 0 <= j < i ==> !NamesRole(rest[j]);
        assert attributes[i + 1] == rest[i];
        forall j | 0 <= j < i + 1 ensures !NamesRole(attributes[j]) { if j > 0 { assert attributes[j] == rest[j - 1]; } }
      }
      if IsTrashAttribute(first) { assert Lower(attributes[0]) in {"\\trash", "\\deleted"}; }
    }
  }

  // ----- the cursor and the source reference -----

  function EncodeCursor(uidValidity: nat, uidNext: int): string {
    Decimal(uidValidity) + ":" + DecimalInt(uidNext)
  }

  /** `None` where the source throws. */
  function DecodeCursor(cursor: string): Option<(int, int)> {
    var parts := Split(cursor, ':');
    if |parts| != 2 then None
    else
      var v, n := ParseInt(parts[0]), ParseInt(parts[1]);
      if v.None? || n.None? then None else Some((v.value, n.value))
  }

  lemma CursorRoundTrip(uidValidity: nat, uidNext: int)
    ensures DecodeCursor(EncodeCursor(uidValidity, uidNext)) == Some((uidValidity as int, uidNext))
  {
    var a, b := Decimal(uidValidity), DecimalInt(uidNext);
    assert ':' !in a && ':' !in b;
    assert a + ":" + b == a + [':'] + b;
    SplitAppend(a, b, ':');
    SplitPlain(b, ':');
    ParseDecimal(uidValidity);
    ParseDecimalInt(uidNext);
  }

  function SourceRef(path: string, uid: nat): string {
    path + ":" + Decimal(uid)
  }

  function UidFromSourceRef(sourceRef: string): int {
    var parts := Split(sourceRef, ':');
    var last := parts[|parts| - 1];
    var uid := ParseInt(if last == "" then "0" else last);
    if uid.None? then 0 else uid.value
  }

  /** The UID comes back out of a reference even when the folder path itself holds colons. */
  lemma SourceRefRoundTrip(path: string, uid: nat)
    ensures UidFromSourceRef(SourceRef(path, uid)) == uid
  {
    assert ':' !in Decimal(uid);
    assert SourceRef(path, uid) == path + [':'] + Decimal(uid);
    LastPart(path, Decimal(uid), ':');
    ParseDecimal(uid);
  }
}
