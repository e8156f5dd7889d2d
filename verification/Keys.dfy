/** Quoted object keys as search needles: where the substring search must land. */
module Keys {
  import opened Prelude
  import opened JsonWalker
  import opened LevelArrays

  predicate IsLetter(b: byte) {
    65 <= b <= 90 || 97 <= b <= 122
  }

  /** A nonempty run of letters. */
  predicate IsName(name: seq<byte>) {
    name != [] && forall i :: 0 <= i < |name| ==> IsLetter(name[i])
  }

  /** `"name":` */
  function Key(name: seq<byte>): seq<byte> {
    [QUOTE] + name + [QUOTE, COLON]
  }

  const ASKS: seq<byte> := [97, 115, 107, 115]
  const BIDS: seq<byte> := [98, 105, 100, 115]
  const EVENT: seq<byte> := [101, 118, 101, 110, 116]
  const LAST_UPDATE_ID: seq<byte> := [108, 97, 115, 116, 85, 112, 100, 97, 116, 101, 73, 100]
  const MICROTIMESTAMP: seq<byte> := [109, 105, 99, 114, 111, 116, 105, 109, 101, 115, 116, 97, 109, 112]

  /** The needle occurs nowhere. */
  predicate Free(s: seq<byte>, needle: seq<byte>) {
    Find(s, 0, needle).None?
  }

  /** A key has no border: where one begins inside another it can only be the same occurrence. */
  lemma {:induction false} NoBorder(name: seq<byte>, k: nat)
    requires IsName(name) && 0 < k < |Key(name)|
    ensures Key(name)[k] == Key(name)[0] ==> k + 1 < |Key(name)| && Key(name)[k + 1] != Key(name)[1]
  {
    if k <= |name| {
      assert Key(name)[k] == name[k - 1];
    }
    assert Key(name)[1] == name[0];
  }

  lemma {:induction false} KeyBytes(name: seq<byte>)
    requires IsName(name)
    ensures |Key(name)| > 1 && Key(name)[0] == QUOTE && IsLetter(Key(name)[1])
  {
    assert Key(name)[1] == name[0];
  }

  lemma {:induction false} MatchAt(buf: seq<byte>, i: nat, needle: seq<byte>, k: nat)
    requires Matches(buf, i, needle) && k < |needle|
    ensures buf[i + k] == needle[k]
  {
    assert buf[i + k] == buf[i..i + |needle|][k];
  }

  lemma {:induction false} StandsWithin(buf: seq<byte>, pos: nat, part: seq<byte>, k: nat, n: nat)
    requires Stands(buf, pos, part) && k + n <= |part|
    ensures buf[pos + k..pos + k + n] == part[k..k + n]
  {
    assert part == part[..k] + (part[k..k + n] + part[k + n..]);
    StandsSplit(buf, pos, part[..k], part[k..k + n] + part[k + n..]);
    StandsSplit(buf, pos + k, part[k..k + n], part[k + n..]);
  }

  lemma {:induction false} KeyStands(s: seq<byte>, i: nat, name: seq<byte>)
    requires Matches(s, i, Key(name))
    ensures Stands(s, i, Key(name))
  {
  }

  lemma {:induction false} StandsHere(s: seq<byte>, i: nat, part: seq<byte>)
    requires Stands(s, i, part)
    ensures i + |part| <= |s| && s[i..i + |part|] == part
  {
  }

  /** An occurrence of a key is a quote, the name, a quote and a colon. */
  lemma {:induction false} KeyMatch(s: seq<byte>, i: nat, name: seq<byte>)
    requires IsName(name) && Matches(s, i, Key(name))
    ensures i + |name| + 2 < |s| && s[i] == QUOTE && IsLetter(s[i + 1])
    ensures s[i + 1..i + 1 + |name|] == name && s[i + 1 + |name|] == QUOTE && s[i + 2 + |name|] == COLON
  {
    hide Stands;
    var quote: seq<byte>, colon: seq<byte> := [QUOTE], [COLON];
    assert Key(name) == quote + (name + (quote + colon));
    KeyStands(s, i, name);
    StandsSplit(s, i, quote, name + (quote + colon));
    StandsSplit(s, i + 1, name, quote + colon);
    StandsSplit(s, i + 1 + |name|, quote, colon);
    ByteStands(s, i, QUOTE);
    ByteStands(s, i + 1 + |name|, QUOTE);
    ByteStands(s, i + 2 + |name|, COLON);
    StandsHere(s, i + 1, name);
    assert s[i + 1] == s[i + 1..i + 1 + |name|][0];
  }

  /** A byte that is no quote, or a quote before something else than a letter, begins no key. */
  lemma {:induction false} NoKeyAt(s: seq<byte>, i: nat, name: seq<byte>)
    requires IsName(name)
    requires i < |s| && s[i] == QUOTE && i + 1 < |s| ==> !IsLetter(s[i + 1])
    ensures !Matches(s, i, Key(name))
  {
    hide Matches, Key;
    if Matches(s, i, Key(name)) {
      KeyMatch(s, i, name);
    }
  }

  /** Two occurrences of a key never overlap. */
  lemma {:induction false} NoOverlap(buf: seq<byte>, i: nat, k: nat, name: seq<byte>)
    requires IsName(name) && 0 < k < |Key(name)| && Matches(buf, i + k, Key(name))
    ensures !Matches(buf, i, Key(name))
  {
    hide Matches, Key;
    NoBorder(name, k);
    KeyBytes(name);
    MatchAt(buf, i + k, Key(name), 0);
    MatchAt(buf, i + k, Key(name), 1);
    if Matches(buf, i, Key(name)) {
      MatchAt(buf, i, Key(name), k);
      if k + 1 < |Key(name)| {
        MatchAt(buf, i, Key(name), k + 1);
      }
    }
  }

  /** No occurrence starts inside a key-free filler, even one that would straddle its end. */
  lemma {:induction false} NoStraddle(buf: seq<byte>, pos: nat, filler: seq<byte>, name: seq<byte>, i: nat)
    requires IsName(name) && Free(filler, Key(name)) && Stands(buf, pos, filler + Key(name))
    requires pos <= i < pos + |filler|
    ensures !Matches(buf, i, Key(name))
  {
    hide Find, Key;
    var key := Key(name);
    StandsSplit(buf, pos, filler, key);
    if i + |key| <= pos + |filler| {
      StandsWithin(buf, pos, filler, i - pos, |key|);
      assert !Matches(filler, i - pos, key);
    } else {
      NoOverlap(buf, i, pos + |filler| - i, name);
    }
  }

  /** The search lands exactly on the key after any filler that does not contain it. */
  lemma {:induction false} KeyFound(buf: seq<byte>, pos: nat, filler: seq<byte>, name: seq<byte>)
    requires IsName(name) && Free(filler, Key(name)) && Stands(buf, pos, filler + Key(name))
    ensures Find(buf, pos, Key(name)) == Some(pos + |filler|)
  {
    hide Free, Key;
    forall i | pos <= i < pos + |filler|
      ensures !Matches(buf, i, Key(name))
    {
      NoStraddle(buf, pos, filler, name, i);
    }
    StandsSplit(buf, pos, filler, Key(name));
    assert Matches(buf, pos + |filler|, Key(name));
  }

  lemma {:induction false} FreeBehind(head: seq<byte>, rest: seq<byte>, needle: seq<byte>, i: nat)
    requires Free(rest, needle) && i >= |head|
    ensures !Matches(head + rest, i, needle)
  {
    assert !Matches(rest, i - |head|, needle);
    if i + |needle| <= |head + rest| {
      assert (head + rest)[i..i + |needle|] == rest[i - |head|..i - |head| + |needle|];
    }
  }

  /** Bytes of a level array before a key-free filler add no occurrence: an array holds no letter. */
  lemma {:induction false} LevelsThenFree(levels: seq<byte>, filler: seq<byte>, name: seq<byte>)
    requires IsName(name) && Free(filler, Key(name))
    requires forall i :: 0 <= i < |levels| ==> LevelByte(levels[i])
    requires levels != [] ==> levels[|levels| - 1] == RBRACKET
    ensures Free(levels + filler, Key(name))
  {
    hide Find, Key, Matches;
    var s, key := levels + filler, Key(name);
    forall i: nat
      ensures !Matches(s, i, key)
    {
      if i < |levels| {
        assert s[i] == levels[i];
        assert i + 1 < |levels| ==> s[i + 1] == levels[i + 1];
        NoKeyAt(s, i, name);
      } else {
        FreeBehind(levels, filler, key, i);
      }
    }
  }

  // ---------------------------------------------------------------- objects of quoted texts

  /** Bytes between two quoted texts, and the text behind them. */
  datatype Chunk = Chunk(gap: seq<byte>, text: seq<byte>)

  predicate IsGap(s: seq<byte>) {
    forall i :: 0 <= i < |s| ==> s[i] != QUOTE && !IsLetter(s[i])
  }

  predicate IsText(s: seq<byte>) {
    forall i :: 0 <= i < |s| ==> s[i] != QUOTE
  }

  predicate AllChunks(chunks: seq<Chunk>) {
    forall k :: 0 <= k < |chunks| ==> IsGap(chunks[k].gap) && IsText(chunks[k].text)
  }

  function Render(chunks: seq<Chunk>, tail: seq<byte>): seq<byte> {
    if chunks == [] then tail
    else chunks[0].gap + (([QUOTE] + chunks[0].text + [QUOTE]) + Render(chunks[1..], tail))
  }

  /** What follows the text of chunk `k`. */
  function GapAfter(chunks: seq<Chunk>, tail: seq<byte>, k: nat): seq<byte>
    requires k < |chunks|
  {
    if k + 1 < |chunks| then chunks[k + 1].gap else tail
  }

  /** A text of that name is nowhere followed by a colon. */
  predicate NeverKey(chunks: seq<Chunk>, tail: seq<byte>, name: seq<byte>) {
    forall k :: 0 <= k < |chunks| && chunks[k].text == name ==>
      var gap := GapAfter(chunks, tail, k); gap == [] || gap[0] != COLON
  }

  lemma {:induction false} RenderStarts(chunks: seq<Chunk>, tail: seq<byte>)
    requires AllChunks(chunks) && IsGap(tail)
    ensures var r := Render(chunks, tail); r != [] ==> !IsLetter(r[0])
    ensures var r, gap := Render(chunks, tail), if chunks == [] then tail else chunks[0].gap;
            r != [] && r[0] == COLON ==> gap != [] && gap[0] == COLON
  {
  }

  /** Two texts without quotes that stand at one place and end at a quote are the same. */
  lemma {:induction false} QuotedSame(s: seq<byte>, at: nat, text: seq<byte>, name: seq<byte>)
    requires IsText(name) && IsText(text) && at + |text| < |s| && at + |name| < |s|
    requires s[at..at + |text|] == text && s[at..at + |name|] == name
    requires s[at + |text|] == QUOTE && s[at + |name|] == QUOTE
    ensures text == name
  {
    assert forall m :: at <= m < at + |text| ==> s[m] == text[m - at];
    assert forall m :: at <= m < at + |name| ==> s[m] == name[m - at];
  }

  /** A quoted text that is not this key begins no occurrence of it, and neither does its closing quote. */
  lemma {:induction false} QuotedFree(gap: seq<byte>, text: seq<byte>, rest: seq<byte>, name: seq<byte>, i: nat)
    requires IsName(name) && IsGap(gap) && IsText(text)
    requires rest != [] ==> !IsLetter(rest[0]) && (text == name ==> rest[0] != COLON)
    requires i < |gap| + |text| + 2
    ensures !Matches(gap + (([QUOTE] + text + [QUOTE]) + rest), i, Key(name))
  {
    hide Key, Matches;
    var s, at := gap + (([QUOTE] + text + [QUOTE]) + rest), |gap| + 1;
    assert s[at..at + |text|] == text && s[at + |text|] == QUOTE;
    assert rest != [] ==> s[at + |text| + 1] == rest[0];
    if Matches(s, i, Key(name)) {
      KeyMatch(s, i, name);
      if i == |gap| {
        QuotedSame(s, at, text, name);
      }
    }
  }

  lemma {:induction false} NoQuoteFree(s: seq<byte>, needle: seq<byte>, i: nat)
    requires IsText(s) && needle != [] && needle[0] == QUOTE
    ensures !Matches(s, i, needle)
  {
    if i + |needle| <= |s| {
      assert s[i..i + |needle|][0] == s[i];
    }
  }

  /** An object of quoted texts holds a key only where such a text is followed by a colon. */
  lemma {:induction false} ChunksFree(chunks: seq<Chunk>, tail: seq<byte>, name: seq<byte>)
    requires IsName(name) && AllChunks(chunks) && IsGap(tail) && NeverKey(chunks, tail, name)
    ensures Free(Render(chunks, tail), Key(name))
    decreases |chunks|
  {
    hide Find, Key;
    KeyBytes(name);
    var s, key := Render(chunks, tail), Key(name);
    if chunks == [] {
      forall i: nat
        ensures !Matches(s, i, key)
      {
        NoQuoteFree(s, key, i);
      }
    } else {
      var rest := Render(chunks[1..], tail);
      assert forall k :: 0 <= k < |chunks| - 1 ==> GapAfter(chunks[1..], tail, k) == GapAfter(chunks, tail, k + 1);
      ChunksFree(chunks[1..], tail, name);
      RenderStarts(chunks[1..], tail);
      assert chunks[0].text == name ==> GapAfter(chunks, tail, 0) == [] || GapAfter(chunks, tail, 0)[0] != COLON;
      var head := chunks[0].gap + ([QUOTE] + chunks[0].text + [QUOTE]);
      assert s == head + rest;
      forall i: nat
        ensures !Matches(s, i, key)
      {
        if i < |head| {
          QuotedFree(chunks[0].gap, chunks[0].text, rest, name, i);
        } else {
          FreeBehind(head, rest, key, i);
        }
      }
    }
  }
}
