/**
 Dialogue keys and pending-message tokens: printed, stored and parsed back as text
 (app/controllers/chat/utils/store.py, offload_chat_data.py, dispatch_pending_chat.py).
 */
module ChatKeys {
  import opened Prelude
  import opened Strings

  /** `chat_<x>_<y>` */
  function KeyText(x: nat, y: nat): string {
    "chat_" + Print(x) + "_" + Print(y)
  }

  /** `chat_<min>_<max>` */
  function DialogueKey(a: nat, b: nat): string {
    KeyText(Low(a, b), High(a, b))
  }

  function Low(a: nat, b: nat): nat { Min(a, b) }

  function High(a: nat, b: nat): nat { Max(a, b) }

  lemma {:induction false} ThreeParts(x: string, y: string, z: string)
    requires '_' !in x && '_' !in y && '_' !in z
    ensures SplitOn(x + "_" + y + "_" + z, '_') == [x, y, z]
  {
    hide SplitOn, IndexOf;
    var tail := y + ['_'] + z;
    SplitWhole(z, '_');
    SplitFirst(y, '_', z);
    SplitFirst(x, '_', tail);
    assert x + "_" + y + "_" + z == x + ['_'] + tail;
  }

  lemma KeyParts(a: nat, b: nat)
    ensures SplitOn(DialogueKey(a, b), '_') == ["chat", Print(Low(a, b)), Print(High(a, b))]
  {
    hide SplitOn, Print;
    var x, y := Print(Low(a, b)), Print(High(a, b));
    PrintHasNo(Low(a, b), '_');
    PrintHasNo(High(a, b), '_');
    ThreeParts("chat", x, y);
    assert "chat_" == "chat" + "_";
  }

  /** The ids an offload reads from a key: parts 1 and 2 as integers. */
  function ParseKey(key: string): Option<(nat, nat)> {
    var parts := SplitOn(key, '_');
    if |parts| < 3 then None
    else match (ParseNat(parts[1]), ParseNat(parts[2]))
      case (Some(x), Some(y)) => Some((x, y))
      case _ => None
  }

  /** Parsing a key gives back the two ids, smaller first, and they rebuild it. */
  lemma KeyRoundTrip(a: nat, b: nat)
    ensures ParseKey(DialogueKey(a, b)) == Some(if a < b then (a, b) else (b, a))
    ensures KeyText(if a < b then a else b, if a < b then b else a) == DialogueKey(a, b)
    ensures (Low(a, b), High(a, b)) == if a < b then (a, b) else (b, a)
  {
    KeyParts(a, b);
    ParsePrint(Low(a, b));
    ParsePrint(High(a, b));
  }

  /** The text is a prefix and two more parts between underscores, the second and third of
      which are printed in digits. */
  ghost predicate IsKeyOf(key: string, x: string, y: string) {
    && '_' !in x && '_' !in y && ParseNat(x).Some? && ParseNat(y).Some?
    && exists p, tail :: IsWritten(key, p, x, y, tail)
  }

  predicate IsWritten(key: string, p: string, x: string, y: string, tail: string) {
    '_' !in p && (tail == "" || tail[0] == '_') && key == p + "_" + x + "_" + y + tail
  }

  /** A key is read exactly when it has that form, and gives back the two numbers. */
  lemma {:induction false} ParseKeyIff(key: string)
    ensures ParseKey(key).Some? <==> exists x, y :: IsKeyOf(key, x, y)
    ensures forall x, y :: IsKeyOf(key, x, y) ==> ParseKey(key) == Some((ParseNat(x).value, ParseNat(y).value))
  {
    hide SplitOn, IndexOf, ParseNat;
    forall x, y | IsKeyOf(key, x, y) ensures ParseKey(key) == Some((ParseNat(x).value, ParseNat(y).value)) {
      var p, tail :| IsWritten(key, p, x, y, tail);
      KeyStarts(p, x, y, tail);
    }
    if ParseKey(key).Some? { ParsedHasForm(key); }
  }

  lemma ParsedHasForm(key: string)
    requires ParseKey(key).Some?
    ensures exists x, y :: IsKeyOf(key, x, y)
  {
    hide SplitOn, IndexOf, ParseNat;
    var parts := SplitOn(key, '_');
    SplitParts(key, '_');
    var r1 :| key == parts[0] + ['_'] + r1 && SplitOn(r1, '_') == parts[1..];
    SplitParts(r1, '_');
    var r2 :| r1 == parts[1] + ['_'] + r2 && SplitOn(r2, '_') == parts[1..][1..];
    var tail := TailOf(r2);
    var p, x, y := parts[0], parts[1], parts[2];
    assert SplitOn(r1, '_')[0] == x && SplitOn(r2, '_')[0] == y && r2 == y + tail;
    assert '_' !in p && '_' !in x && '_' !in y && ParseNat(x).Some? && ParseNat(y).Some?;
    Underscores(key, p, x, y, tail, r1, r2);
    assert IsWritten(key, p, x, y, tail);
    assert IsKeyOf(key, x, y);
  }

  lemma Underscores(key: string, p: string, x: string, y: string, tail: string, r1: string, r2: string)
    requires key == p + ['_'] + r1 && r1 == x + ['_'] + r2 && r2 == y + tail
    ensures key == p + "_" + x + "_" + y + tail
  {
    assert r1 == x + "_" + y + tail;
    assert key == p + "_" + (x + "_" + y + tail);
  }

  /** What follows the first part. */
  lemma TailOf(s: string) returns (tail: string)
    ensures s == SplitOn(s, '_')[0] + tail && (tail == "" || tail[0] == '_') && '_' !in SplitOn(s, '_')[0]
  {
    hide SplitOn;
    SplitParts(s, '_');
    var parts := SplitOn(s, '_');
    if |parts| == 1 {
      tail := "";
    } else {
      var rest :| s == parts[0] + ['_'] + rest && SplitOn(rest, '_') == parts[1..];
      tail := ['_'] + rest;
    }
  }

  lemma KeyStarts(p: string, x: string, y: string, tail: string)
    requires '_' !in p && '_' !in x && '_' !in y && (tail == "" || tail[0] == '_')
    ensures
      var parts := SplitOn(p + "_" + x + "_" + y + tail, '_');
      |parts| >= 3 && parts[1] == x && parts[2] == y
  {
    hide SplitOn, IndexOf;
    var r1, r2 := x + "_" + y + tail, y + tail;
    if tail == "" {
      assert r2 == y;
      SplitWhole(y, '_');
    } else {
      assert r2 == y + ['_'] + tail[1..];
      SplitFirst(y, '_', tail[1..]);
    }
    assert r1 == x + ['_'] + r2;
    SplitFirst(x, '_', r2);
    assert p + "_" + x + "_" + y + tail == p + ['_'] + r1;
    SplitFirst(p, '_', r1);
  }

  /** Keys are the same exactly for the same unordered pair of ids. */
  lemma KeyOfPair(a: nat, b: nat, c: nat, d: nat)
    ensures DialogueKey(a, b) == DialogueKey(c, d) <==> (a == c && b == d) || (a == d && b == c)
  {
    KeyRoundTrip(a, b);
    KeyRoundTrip(c, d);
  }

  /** `<dialogue key>:<timestamp>` */
  function Token(key: string, timestamp: string): string {
    key + ":" + timestamp
  }

  /** How the dispatcher reads a token: the first two parts; None is an index error. */
  function ParseToken(token: string): Option<(string, string)> {
    var parts := SplitOn(token, ':');
    if |parts| < 2 then None else Some((parts[0], parts[1]))
  }

  lemma KeyHasNoColon(a: nat, b: nat)
    ensures ':' !in DialogueKey(a, b)
  {
    PrintHasNo(Low(a, b), ':');
    PrintHasNo(High(a, b), ':');
    assert ':' !in "chat_" && ':' !in "_";
  }

  /** A token gives back its key and timestamp exactly when the printed timestamp
      has no colon, which no printed number has. */
  lemma TokenRoundTripIff(a: nat, b: nat, timestamp: string)
    ensures ParseToken(Token(DialogueKey(a, b), timestamp)) == Some((DialogueKey(a, b), timestamp))
            <==> ':' !in timestamp
  {
    var key := DialogueKey(a, b);
    KeyHasNoColon(a, b);
    assert Token(key, timestamp) == key + [':'] + timestamp;
    SplitFirst(key, ':', timestamp);
    var i := IndexOf(timestamp, ':');
    if ':' in timestamp {
      assert timestamp[..|timestamp|] == timestamp;
      assert i < |timestamp|;
      assert SplitOn(timestamp, ':')[0] == timestamp[..i];
    }
  }

  /** Different messages have different tokens. */
  lemma TokenInjective(a: nat, b: nat, t: nat, c: nat, d: nat, u: nat)
    requires Token(DialogueKey(a, b), Print(t)) == Token(DialogueKey(c, d), Print(u))
    ensures DialogueKey(a, b) == DialogueKey(c, d) && t == u
  {
    PrintHasNo(t, ':');
    PrintHasNo(u, ':');
    TokenRoundTripIff(a, b, Print(t));
    TokenRoundTripIff(c, d, Print(u));
    ParsePrint(t);
    ParsePrint(u);
  }
}
