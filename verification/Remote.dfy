/** The infrared remote control: which key a text names, and which texts count as a new key press. */
module Remote {
  datatype Key =
    | NoKey | Digit(value: nat) | Play | Stop | Next | Prev | Sub10
    | VolumeUp | VolumeDown | Forward | Backward | Check

  /** The tokens searched for, in the order of the tests. */
  const TOKENS: seq<(string, Key)> := [
    ("KEY_PLAY", Play), ("check", Check), ("KEY_STOP", Stop), ("KEY_PREVIOUS", Prev), ("KEY_NEXT", Next),
    ("KEY_1", Digit(1)), ("KEY_2", Digit(2)), ("KEY_3", Digit(3)), ("KEY_4", Digit(4)), ("KEY_5", Digit(5)),
    ("KEY_6", Digit(6)), ("KEY_7", Digit(7)), ("KEY_8", Digit(8)), ("KEY_9", Digit(9)), ("KEY_0", Digit(0)),
    (">10", Sub10), ("KEY_VOLUMEUP", VolumeUp), ("KEY_VOLUMEDOWN", VolumeDown),
    ("KEY_BACK", Backward), ("KEY_FORWARD", Forward), ("xx", NoKey)]

  /** The text a tick works on when no infrared code arrived. */
  const SILENCE := "xx"

  predicate OccursAt(s: string, token: string, i: nat) {
    i + |token| <= |s| && s[i..i + |token|] == token
  }

  /** `std::string::find` succeeds. */
  predicate Contains(s: string, token: string) {
    exists i | 0 <= i <= |s| :: OccursAt(s, token, i)
  }

  ghost predicate IsSplit(s: string, a: string, token: string, b: string) {
    s == a + token + b
  }

  /** A token is found exactly when the text is something, the token, and something. */
  lemma FoundAnywhere(s: string, token: string)
    ensures Contains(s, token) <==> exists a, b :: IsSplit(s, a, token, b)
  {
    if Contains(s, token) {
      var i :| 0 <= i <= |s| && OccursAt(s, token, i);
      assert s == s[..i] + s[i..i + |token|] + s[i + |token|..];
      assert IsSplit(s, s[..i], token, s[i + |token|..]);
    }
    if exists a, b :: IsSplit(s, a, token, b) {
      var a, b :| IsSplit(s, a, token, b);
      FoundInside(a, token, b);
    }
  }

  lemma FoundInside(a: string, token: string, b: string)
    ensures Contains(a + token + b, token)
  {
    var s := a + token + b;
    assert s[|a|..|a| + |token|] == token;
    assert OccursAt(s, token, |a|);
  }

  /** The key selected by the first `n` tests, the previous key if none of them matched: the last match wins. */
  function Selected(text: string, n: nat, previous: Key): Key
    requires n <= |TOKENS|
  {
    if n == 0 then previous
    else if Contains(text, TOKENS[n - 1].0) then TOKENS[n - 1].1
    else Selected(text, n - 1, previous)
  }

  /** The key all the tests together select. */
  function KeyOf(text: string, previous: Key): Key {
    Selected(text, |TOKENS|, previous)
  }

  /** Three tests at once. */
  lemma SelectedThree(text: string, n: nat, previous: Key)
    requires n + 3 <= |TOKENS|
    ensures Selected(text, n + 3, previous) ==
            if Contains(text, TOKENS[n + 2].0) then TOKENS[n + 2].1
            else if Contains(text, TOKENS[n + 1].0) then TOKENS[n + 1].1
            else if Contains(text, TOKENS[n].0) then TOKENS[n].1
            else Selected(text, n, previous)
    ensures Selected(text, 0, previous) == previous
  {
    hide Contains;
    assert Selected(text, n + 2, previous) ==
      if Contains(text, TOKENS[n + 1].0) then TOKENS[n + 1].1 else Selected(text, n + 1, previous);
  }

  /** The twenty-one tests one after the other, each overwriting the code. */
  method ScanKey(text: string, previous: Key) returns (key: Key)
    ensures key == KeyOf(text, previous)
  {
    hide Contains;
    hide Selected;
    SelectedThree(text, 0, previous);
    SelectedThree(text, 3, previous);
    SelectedThree(text, 6, previous);
    SelectedThree(text, 9, previous);
    SelectedThree(text, 12, previous);
    SelectedThree(text, 15, previous);
    SelectedThree(text, 18, previous);
    key := previous;
    if Contains(text, "KEY_PLAY") { key := Play; }
    if Contains(text, "check") { key := Check; }
    if Contains(text, "KEY_STOP") { key := Stop; }
    if Contains(text, "KEY_PREVIOUS") { key := Prev; }
    if Contains(text, "KEY_NEXT") { key := Next; }
    if Contains(text, "KEY_1") { key := Digit(1); }
    if Contains(text, "KEY_2") { key := Digit(2); }
    if Contains(text, "KEY_3") { key := Digit(3); }
    if Contains(text, "KEY_4") { key := Digit(4); }
    if Contains(text, "KEY_5") { key := Digit(5); }
    if Contains(text, "KEY_6") { key := Digit(6); }
    if Contains(text, "KEY_7") { key := Digit(7); }
    if Contains(text, "KEY_8") { key := Digit(8); }
    if Contains(text, "KEY_9") { key := Digit(9); }
    if Contains(text, "KEY_0") { key := Digit(0); }
    if Contains(text, ">10") { key := Sub10; }
    if Contains(text, "KEY_VOLUMEUP") { key := VolumeUp; }
    if Contains(text, "KEY_VOLUMEDOWN") { key := VolumeDown; }
    if Contains(text, "KEY_BACK") { key := Backward; }
    if Contains(text, "KEY_FORWARD") { key := Forward; }
    if Contains(text, "xx") { key := NoKey; }
  }

  lemma {:induction false} SelectedLast(text: string, n: nat, previous: Key, i: nat)
    requires i < n <= |TOKENS|
    requires Contains(text, TOKENS[i].0)
    requires forall j :: i < j < n ==> !Contains(text, TOKENS[j].0)
    ensures Selected(text, n, previous) == TOKENS[i].1
  {
    hide Contains;
    if i < n - 1 {
      SelectedLast(text, n - 1, previous, i);
    }
  }

  /** The last token in test order that occurs in the text decides; the key held before plays no part. */
  lemma LastTokenWins(text: string, previous: Key, i: nat)
    requires i < |TOKENS| && Contains(text, TOKENS[i].0)
    requires forall j :: i < j < |TOKENS| ==> !Contains(text, TOKENS[j].0)
    ensures KeyOf(text, previous) == TOKENS[i].1
  {
    SelectedLast(text, |TOKENS|, previous, i);
  }

  lemma {:induction false} SelectedNone(text: string, n: nat, previous: Key)
    requires n <= |TOKENS|
    requires forall j :: 0 <= j < n ==> !Contains(text, TOKENS[j].0)
    ensures Selected(text, n, previous) == previous
  {
    hide Contains;
    if n > 0 {
      SelectedNone(text, n - 1, previous);
    }
  }

  /** A text that contains no token leaves the key as it was. */
  lemma UnknownTextKeepsKey(text: string, previous: Key)
    requires forall j :: 0 <= j < |TOKENS| ==> !Contains(text, TOKENS[j].0)
    ensures KeyOf(text, previous) == previous
  {
    SelectedNone(text, |TOKENS|, previous);
  }

  /**
   Wherever the name stands in a text, it selects the key, whatever was held before, unless a name tested later, from
   position `i + 1` on, stands in the text as well.
   */
  ghost predicate Selects(a: string, name: string, b: string, i: nat, key: Key)
    requires i < |TOKENS|
  {
    var text := a + name + b;
    (forall j :: i < j < |TOKENS| ==> !Contains(text, TOKENS[j].0)) ==> forall previous :: KeyOf(text, previous) == key
  }

  lemma TokenSelects(a: string, b: string, i: nat)
    requires i < |TOKENS|
    ensures Selects(a, TOKENS[i].0, b, i, TOKENS[i].1)
  {
    hide Contains;
    var text := a + TOKENS[i].0 + b;
    FoundInside(a, TOKENS[i].0, b);
    if forall j :: i < j < |TOKENS| ==> !Contains(text, TOKENS[j].0) {
      forall previous
        ensures KeyOf(text, previous) == TOKENS[i].1
      {
        LastTokenWins(text, previous, i);
      }
    }
  }

  /** What each button's name selects, anywhere in a text, and in which order the names are tested. */
  lemma NamesSelectKeys(a: string, b: string)
    ensures Selects(a, "KEY_PLAY", b, 0, Play)
    ensures Selects(a, "check", b, 1, Check)
    ensures Selects(a, "KEY_STOP", b, 2, Stop)
    ensures Selects(a, "KEY_PREVIOUS", b, 3, Prev)
    ensures Selects(a, "KEY_NEXT", b, 4, Next)
    ensures Selects(a, "KEY_1", b, 5, Digit(1))
    ensures Selects(a, "KEY_2", b, 6, Digit(2))
    ensures Selects(a, "KEY_3", b, 7, Digit(3))
    ensures Selects(a, "KEY_4", b, 8, Digit(4))
    ensures Selects(a, "KEY_5", b, 9, Digit(5))
    ensures Selects(a, "KEY_6", b, 10, Digit(6))
    ensures Selects(a, "KEY_7", b, 11, Digit(7))
    ensures Selects(a, "KEY_8", b, 12, Digit(8))
    ensures Selects(a, "KEY_9", b, 13, Digit(9))
    ensures Selects(a, "KEY_0", b, 14, Digit(0))
    ensures Selects(a, ">10", b, 15, Sub10)
    ensures Selects(a, "KEY_VOLUMEUP", b, 16, VolumeUp)
    ensures Selects(a, "KEY_VOLUMEDOWN", b, 17, VolumeDown)
    ensures Selects(a, "KEY_BACK", b, 18, Backward)
    ensures Selects(a, "KEY_FORWARD", b, 19, Forward)
    ensures Selects(a, "xx", b, 20, NoKey)
  {
    hide Selects;
    TokenSelects(a, b, 0);
    TokenSelects(a, b, 1);
    TokenSelects(a, b, 2);
    TokenSelects(a, b, 3);
    TokenSelects(a, b, 4);
    TokenSelects(a, b, 5);
    TokenSelects(a, b, 6);
    TokenSelects(a, b, 7);
    TokenSelects(a, b, 8);
    TokenSelects(a, b, 9);
    TokenSelects(a, b, 10);
    TokenSelects(a, b, 11);
    TokenSelects(a, b, 12);
    TokenSelects(a, b, 13);
    TokenSelects(a, b, 14);
    TokenSelects(a, b, 15);
    TokenSelects(a, b, 16);
    TokenSelects(a, b, 17);
    TokenSelects(a, b, 18);
    TokenSelects(a, b, 19);
    TokenSelects(a, b, 20);
  }

  /** With no infrared code at all the key is released. */
  lemma SilenceReleases(previous: Key)
    ensures KeyOf(SILENCE, previous) == NoKey
  {
    assert OccursAt(SILENCE, "xx", 0);
  }

  // ---------- Debouncing ----------

  /** The key held after the ticks that worked on `texts`. */
  function HeldAfter(texts: seq<string>): Key {
    if texts == [] then NoKey else KeyOf(texts[|texts| - 1], HeldAfter(texts[..|texts| - 1]))
  }

  /** The key held at the end of each tick. */
  function Held(texts: seq<string>): (keys: seq<Key>)
    ensures |keys| == |texts|
  {
    if texts == [] then [] else Held(texts[..|texts| - 1]) + [HeldAfter(texts)]
  }

  /** What precedes position `i`; nothing is held before the first tick. */
  function Before(keys: seq<Key>, i: nat): Key
    requires i <= |keys|
  {
    if i == 0 then NoKey else keys[i - 1]
  }

  /** The keys with consecutive duplicates removed, taking `NoKey` to precede them all. */
  function Destutter(keys: seq<Key>): seq<Key> {
    if keys == [] then []
    else
      var n := |keys| - 1;
      Destutter(keys[..n]) + if keys[n] != Before(keys, n) then [keys[n]] else []
  }

  /** Adjacent entries differ and the first one is a real key. */
  predicate StutterFree(keys: seq<Key>) {
    forall i :: 0 <= i < |keys| ==> keys[i] != Before(keys, i)
  }

  lemma {:induction false} DestutterStutterFree(keys: seq<Key>)
    ensures StutterFree(Destutter(keys))
    ensures Before(Destutter(keys), |Destutter(keys)|) == Before(keys, |keys|)
  {
    if keys != [] {
      var n := |keys| - 1;
      var rest, all := Destutter(keys[..n]), Destutter(keys);
      DestutterStutterFree(keys[..n]);
      assert Before(keys[..n], n) == Before(keys, n);
      hide Destutter;
      forall i | 0 <= i < |all|
        ensures all[i] != Before(all, i)
      {
        if i < |rest| {
          assert rest[i] != Before(rest, i);
        }
      }
    }
  }

  /** A sequence that already alternates is left alone, so nothing but repetition is ever dropped. */
  lemma {:induction false} DestutterKeepsChanges(keys: seq<Key>)
    requires StutterFree(keys)
    ensures Destutter(keys) == keys
  {
    if keys != [] {
      var n := |keys| - 1;
      var init := keys[..n];
      forall i | 0 <= i < n
        ensures init[i] != Before(init, i)
      {
        assert keys[i] != Before(keys, i);
      }
      DestutterKeepsChanges(keys[..n]);
      assert keys == keys[..n] + [keys[n]];
    }
  }
}
