/**
 * The Konami-code easter egg: every `keydown` appends the key to a buffer that is cut back
 * to the last ten keys, and the effect fires when the joined buffer equals the joined code.
 */
module Konami {

  import opened JsText

  const KonamiSequence: seq<string> := [
    "ArrowUp", "ArrowUp", "ArrowDown", "ArrowDown",
    "ArrowLeft", "ArrowRight", "ArrowLeft", "ArrowRight", "b", "a"
  ]

  /** `keys.slice(-konamiSequence.length)`: the last ten keys, or all of them when fewer. */
  function LastKeys(keys: seq<string>): (r: seq<string>)
    ensures |r| == if |keys| < |KonamiSequence| then |keys| else |KonamiSequence|
    ensures r == keys[|keys| - |r|..]
  {
    if |keys| <= |KonamiSequence| then keys else keys[|keys| - |KonamiSequence|..]
  }

  /** Cutting the buffer back after every key keeps the last ten keys of the whole history. */
  lemma SlidingWindow(history: seq<string>, key: string)
    ensures LastKeys(LastKeys(history) + [key]) == LastKeys(history + [key])
  {
    var w := LastKeys(history);
    var h := history + [key];
    assert (w + [key]) == h[|h| - |w| - 1..];
  }

  /** The buffer is the code exactly when the last ten keys pressed are the code. */
  lemma BufferIsCode(history: seq<string>)
    ensures LastKeys(history) == KonamiSequence <==>
              |history| >= |KonamiSequence| && history[|history| - |KonamiSequence|..] == KonamiSequence
  {
  }

  lemma {:induction false} JoinConcat(a: seq<string>, b: seq<string>)
    ensures Join(a + b) == Join(a) + Join(b)
  {
    if a != [] {
      assert (a + b)[0] == a[0] && (a + b)[1..] == a[1..] + b;
      JoinConcat(a[1..], b);
      assert Join(a + b) == a[0] + (Join(a[1..]) + Join(b));
    } else {
      assert a + b == b;
    }
  }

  /** Two adjacent keys and the one key spelling both join to the same text. */
  lemma {:induction false} MergingKeysKeepsJoin(before: seq<string>, x: string, y: string, after: seq<string>)
    ensures Join(before + [x + y] + after) == Join(before + [x, y] + after)
  {
    assert before + [x + y] + after == before + ([x + y] + after);
    assert before + [x, y] + after == before + ([x, y] + after);
    JoinConcat(before, [x + y] + after);
    JoinConcat(before, [x, y] + after);
    assert ([x + y] + after)[1..] == after;
    assert ([x, y] + after)[1..] == [y] + after;
    assert ([y] + after)[1..] == after;
  }

  /** Comparing joined strings is coarser than comparing keys: ten other strings, none of
      them the code, join to the same text. "ArrowUpArrowUp", "Arrow" and "Right" are not key
      names a keyboard reports, so this is a property of the joined comparison, not a false
      trigger a real keyboard can produce. */
  lemma JoinedComparisonIsCoarser()
    ensures var other := ["ArrowUpArrowUp", "ArrowDown", "ArrowDown", "ArrowLeft",
                          "ArrowRight", "ArrowLeft", "Arrow", "Right", "b", "a"];
            |other| == |KonamiSequence| && other != KonamiSequence && Join(other) == Join(KonamiSequence)
  {
    var other := ["ArrowUpArrowUp", "ArrowDown", "ArrowDown", "ArrowLeft",
                  "ArrowRight", "ArrowLeft", "Arrow", "Right", "b", "a"];
    var merged := ["ArrowUpArrowUp"] + KonamiSequence[2..];
    assert KonamiSequence == [] + ["ArrowUp", "ArrowUp"] + KonamiSequence[2..];
    assert "ArrowUp" + "ArrowUp" == "ArrowUpArrowUp";
    assert merged == [] + ["ArrowUp" + "ArrowUp"] + KonamiSequence[2..];
    MergingKeysKeepsJoin([], "ArrowUp", "ArrowUp", KonamiSequence[2..]);
    assert "Arrow" + "Right" == "ArrowRight";
    assert merged == merged[..6] + ["Arrow" + "Right"] + merged[7..];
    assert other == merged[..6] + ["Arrow", "Right"] + merged[7..];
    MergingKeysKeepsJoin(merged[..6], "Arrow", "Right", merged[7..]);
    assert other[0] != KonamiSequence[0];
  }

  /** The page's `keydown` listener with its `konamiCode` buffer. `pressed` is every key
      seen so far, kept only to state what the buffer holds. */
  class KonamiListener {
    var code: seq<string>
    ghost var pressed: seq<string>

    ghost predicate Valid()
      reads this
    {
      code == LastKeys(pressed)
    }

    constructor ()
      ensures code == [] && pressed == []
      ensures Valid()
    {
      code := [];
      pressed := [];
    }

    /** Push the key, keep the last ten, and report whether the effect fires. */
    method KeyDown(key: string) returns (fired: bool)
      requires Valid()
      modifies this
      ensures Valid()
      ensures pressed == old(pressed) + [key]
      ensures code == LastKeys(old(code) + [key])
      ensures |code| <= |KonamiSequence|
      ensures fired <==> Join(code) == Join(KonamiSequence)
      ensures |pressed| >= |KonamiSequence| && pressed[|pressed| - |KonamiSequence|..] == KonamiSequence ==> fired
    {
      SlidingWindow(pressed, key);
      pressed := pressed + [key];
      code := code + [key];
      code := LastKeys(code);
      BufferIsCode(pressed);
      fired := Join(code) == Join(KonamiSequence);
    }
  }
}
