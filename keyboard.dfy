// Keyboard input: the `keydown` dispatch table and the `keypress` easter-egg buffer.

module Keys {
  import opened Sections

  /** `toLowerCase` on one character (ASCII letters only). */
  function LowerChar(c: char): (r: char)
    ensures 'A' <= c <= 'Z' ==> r as int == c as int + 32
    ensures !('A' <= c <= 'Z') ==> r == c
  {
    if 'A' <= c <= 'Z' then (c as int + 32) as char else c
  }

  function Lower(s: string): (r: string)
    ensures |r| == |s|
    ensures forall i :: 0 <= i < |s| ==> r[i] == LowerChar(s[i])
  {
    if s == [] then [] else [LowerChar(s[0])] + Lower(s[1..])
  }

  /** What a `keydown` leads to. */
  datatype Action = Ignore | Navigate(section: string) | Ace(side: Side)

  /** The `keydown` handler: nothing while animating; digits 1-4 pick a section;
      `h`, `H` or Escape go home; the arrows click an ace unless on home. */
  function KeyDownAction(key: string, isAnimating: bool, currentSection: string): (a: Action)
    ensures isAnimating ==> a == Ignore
    ensures a.Navigate? ==> a.section in {Home, "about", "projects", "achievements"}
    ensures a.Ace? ==> currentSection != Home
  {
    if isAnimating then Ignore
    else if key == "1" then Navigate(Home)
    else if key == "2" then Navigate("about")
    else if key == "3" then Navigate("projects")
    else if key == "4" then Navigate("achievements")
    else if Lower(key) == "h" || key == "Escape" then Navigate(Home)
    else if currentSection != Home && key == "ArrowLeft" then Ace(Left)
    else if currentSection != Home && key == "ArrowRight" then Ace(Right)
    else Ignore
  }

  lemma {:induction false} LowerIsH(key: string)
    ensures Lower(key) == "h" <==> key == "h" || key == "H"
  {
    if Lower(key) == "h" {
      assert |key| == 1 && LowerChar(key[0]) == 'h';
      assert key == [key[0]];
    }
    if key == "h" || key == "H" {
      assert Lower(key)[0] == 'h';
    }
  }

  /** Exactly the keys 1, h, H and Escape lead home, and only when idle. */
  lemma HomeKeys(key: string, isAnimating: bool, currentSection: string)
    ensures KeyDownAction(key, isAnimating, currentSection) == Navigate(Home)
            <==> !isAnimating && key in {"1", "h", "H", "Escape"}
  {
    LowerIsH(key);
  }

  /** Digits 2, 3 and 4 lead to about, projects and achievements; no key reaches contact. */
  lemma SectionKeys(key: string, isAnimating: bool, currentSection: string, section: string)
    requires section != Home
    ensures KeyDownAction(key, isAnimating, currentSection) == Navigate(section)
            <==> !isAnimating && ((key == "2" && section == "about")
                                  || (key == "3" && section == "projects")
                                  || (key == "4" && section == "achievements"))
  {
    LowerIsH(key);
  }

  /** The arrows click an ace exactly when idle and not on home. */
  lemma ArrowKeys(key: string, isAnimating: bool, currentSection: string, side: Side)
    ensures KeyDownAction(key, isAnimating, currentSection) == Ace(side)
            <==> !isAnimating && currentSection != Home
                 && key == (if side == Left then "ArrowLeft" else "ArrowRight")
  {
    LowerIsH(key);
  }
}

module EasterEgg {
  import opened Keys

  const Secret: string := "yachtmaster"

  /** The last eleven characters of `s` (`slice(-11)` when longer). */
  function Last11(s: string): (r: string)
    ensures |r| == if |s| > 11 then 11 else |s|
    ensures r == s[|s| - |r|..]
  {
    if |s| > 11 then s[|s| - 11..] else s
  }

  /** One `keypress`: append the lower-cased key, keep the last eleven
      characters, and clear the buffer when it spells the secret word. */
  function Feed(buffer: string, key: string): (r: string)
    ensures |r| <= |Secret|
    ensures r != Secret
    ensures r == [] <==> Last11(buffer + Lower(key)) in {Secret, []}
    ensures r != [] ==> r == Last11(buffer + Lower(key))
  {
    var s := Last11(buffer + Lower(key));
    if s == Secret then [] else s
  }

  /** Keys typed one character at a time. */
  function FeedChars(buffer: string, keys: seq<char>): string
    decreases |keys|
  {
    if keys == [] then buffer else FeedChars(Feed(buffer, [keys[0]]), keys[1..])
  }

  /** `s` ends with the first `k` letters of the word. */
  predicate EndsWithStart(s: string, k: nat)
  {
    k <= |Secret| && k <= |s| && s[|s| - k..] == Secret[..k]
  }

  lemma SuffixOfSuffix(s: string, t: string, k: nat)
    requires |t| <= |s| && t == s[|s| - |t|..] && k <= |t|
    ensures t[|t| - k..] == s[|s| - k..]
  {
  }

  /** One more letter of the word: the buffer then ends with one more letter of
      it, and it is cleared exactly when that letter is the last. */
  lemma {:induction false} FeedNextLetter(buffer: string, c: char, j: nat)
    requires j < |Secret| && LowerChar(c) == Secret[j]
    requires EndsWithStart(buffer, j)
    ensures j + 1 < |Secret| ==> EndsWithStart(Feed(buffer, [c]), j + 1)
    ensures j + 1 == |Secret| ==> Feed(buffer, [c]) == []
  {
    var t := Last11(buffer + Lower([c]));
    TrimmedEndsWithNext(buffer, c, j);
    if j + 1 == |Secret| {
      assert Secret[..11] == Secret;
      assert t == Secret;
    } else {
      assert t[|t| - 1] == Secret[j];
      OnlyLastLetterIsR(j);
      assert t != Secret;
    }
  }

  /** After the next letter of the word, the trimmed buffer ends with one more
      letter of it. */
  lemma {:induction false} TrimmedEndsWithNext(buffer: string, c: char, j: nat)
    requires j < |Secret| && LowerChar(c) == Secret[j]
    requires EndsWithStart(buffer, j)
    ensures EndsWithStart(Last11(buffer + Lower([c])), j + 1)
  {
    var s := buffer + Lower([c]);
    assert Lower([c]) == [Secret[j]];
    PrefixGrows(buffer, Secret, j);
    SuffixOfSuffix(s, Last11(s), j + 1);
  }

  /** A string ending with the first `j` letters of `w`, followed by the next
      letter, ends with the first `j + 1`. */
  lemma PrefixGrows(b: string, w: string, j: nat)
    requires j < |w| && j <= |b| && b[|b| - j..] == w[..j]
    ensures var s := b + [w[j]]; s[|s| - (j + 1)..] == w[..j + 1]
  {
    var s := b + [w[j]];
    assert s[|s| - (j + 1)..] == b[|b| - j..] + [w[j]];
    assert w[..j + 1] == w[..j] + [w[j]];
  }

  /** Lower-casing splits at the first character. */
  lemma LowerRest(keys: seq<char>, w: string)
    requires |keys| >= 1 && Lower(keys) == w
    ensures LowerChar(keys[0]) == w[0] && Lower(keys[1..]) == w[1..]
  {
  }

  lemma OnlyLastLetterIsR(j: int)
    requires 0 <= j < |Secret| - 1
    ensures Secret[j] != Secret[|Secret| - 1]
  {
  }

  /** Typing the rest of the word from a buffer that already ends with its first
      `j` letters clears the buffer (`FeedNextLetter` shows it is not cleared
      before the last letter). */
  lemma {:induction false} FeedTowardSecret(buffer: string, keys: seq<char>, j: nat)
    requires j < |Secret| && j + |keys| == |Secret|
    requires Lower(keys) == Secret[j..]
    requires EndsWithStart(buffer, j)
    ensures FeedChars(buffer, keys) == []
    decreases |keys|
  {
    var c := keys[0];
    LowerRest(keys, Secret[j..]);
    assert Secret[j..][1..] == Secret[j + 1..];
    FeedNextLetter(buffer, c, j);
    var next := Feed(buffer, [c]);
    assert FeedChars(buffer, keys) == FeedChars(next, keys[1..]);
    if |keys| > 1 {
      FeedTowardSecret(next, keys[1..], j + 1);
    }
  }

  /** From any buffer the handler can hold, typing `yachtmaster` (in any case)
      clears the buffer. */
  lemma TypingSecretClears(buffer: string, keys: seq<char>)
    requires Lower(keys) == Secret
    ensures FeedChars(buffer, keys) == []
  {
    FeedTowardSecret(buffer, keys, 0);
  }
}
