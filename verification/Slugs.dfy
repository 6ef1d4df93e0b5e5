/** Identifiers, which are lowercase words and numbers joined by single hyphens, and the digits of hashes. */
module Slugs {
  import opened Text

  predicate IsWordChar(c: char) {
    'a' <= c <= 'z' || '0' <= c <= '9'
  }

  predicate NoHyphenAt(s: string, i: nat) {
    i < |s| ==> s[i] != '-'
  }

  /** [a-z0-9]+(-[a-z0-9]+)* */
  predicate IsSlug(s: string) {
    && s != "" && s[0] != '-' && s[|s| - 1] != '-'
    && (forall i :: 0 <= i < |s| ==> s[i] == '-' || IsWordChar(s[i]))
    && forall i :: 0 <= i < |s| && s[i] == '-' ==> NoHyphenAt(s, i + 1)
  }

  predicate IsWord(s: string) {
    s != "" && forall i :: 0 <= i < |s| ==> s[i] in "abcdefghijklmnopqrstuvwxyz0123456789"
  }

  predicate AllWords(parts: seq<string>) {
    forall i :: 0 <= i < |parts| ==> IsWord(parts[i])
  }

  lemma WordCharIs(c: char)
    ensures IsWordChar(c) <==> c in "abcdefghijklmnopqrstuvwxyz0123456789"
  {
    LetterIs(c);
    DigitIs(c);
    assert "abcdefghijklmnopqrstuvwxyz0123456789" == "abcdefghijklmnopqrstuvwxyz" + "0123456789";
  }

  lemma LetterIs(c: char)
    ensures 'a' <= c <= 'z' <==> c in "abcdefghijklmnopqrstuvwxyz"
  {
    var all := "abcdefghijklmnopqrstuvwxyz";
    assert forall i :: 0 <= i < |all| ==> all[i] as int == 'a' as int + i;
    if 'a' <= c <= 'z' {
      assert all[c as int - 'a' as int] == c;
    }
  }

  lemma DigitIs(c: char)
    ensures '0' <= c <= '9' <==> c in "0123456789"
  {
    var all := "0123456789";
    assert forall i :: 0 <= i < |all| ==> all[i] as int == '0' as int + i;
    if '0' <= c <= '9' {
      assert all[c as int - '0' as int] == c;
    }
  }

  lemma SlugBeforeHyphen(c: char, rest: string)
    requires c != '-'
    ensures IsSlug([c, '-'] + rest) <==> IsWordChar(c) && IsSlug(rest)
  {
    var s := [c, '-'] + rest;
    if IsSlug(s) {
      assert s[0] == c && s[1] == '-' && NoHyphenAt(s, 2);
      forall i | 0 <= i < |rest| ensures rest[i] == '-' || IsWordChar(rest[i]) {
        assert rest[i] == s[i + 2];
      }
      forall i | 0 <= i < |rest| && rest[i] == '-' ensures NoHyphenAt(rest, i + 1) {
        assert s[i + 2] == '-' && NoHyphenAt(s, i + 3);
      }
    }
    if IsWordChar(c) && IsSlug(rest) {
      forall i | 0 <= i < |s| && s[i] == '-' ensures NoHyphenAt(s, i + 1) {
        assert i > 1 ==> rest[i - 2] == '-' && NoHyphenAt(rest, i - 1);
      }
    }
  }

  lemma SlugBeforeWord(c: char, rest: string)
    requires c != '-' && rest != "" && rest[0] != '-'
    ensures IsSlug([c] + rest) <==> IsWordChar(c) && IsSlug(rest)
  {
    var s := [c] + rest;
    if IsSlug(s) {
      forall i | 0 <= i < |rest| ensures rest[i] == '-' || IsWordChar(rest[i]) {
        assert rest[i] == s[i + 1];
      }
      forall i | 0 <= i < |rest| && rest[i] == '-' ensures NoHyphenAt(rest, i + 1) {
        assert s[i + 1] == '-' && NoHyphenAt(s, i + 2);
      }
    }
    if IsWordChar(c) && IsSlug(rest) {
      forall i | 0 <= i < |s| && s[i] == '-' ensures NoHyphenAt(s, i + 1) {
        assert i > 0 ==> rest[i - 1] == '-' && NoHyphenAt(rest, i);
      }
    }
  }

  lemma WordCons(c: char, word: string)
    ensures IsWord([c] + word) <==> IsWordChar(c) && (word == "" || IsWord(word))
  {
    WordCharIs(c);
    var longer := [c] + word;
    if IsWord(longer) {
      assert longer[0] == c;
      forall i | 0 <= i < |word| ensures word[i] in "abcdefghijklmnopqrstuvwxyz0123456789" {
        assert longer[i + 1] == word[i];
      }
    }
  }

  lemma WordsCons(first: string, rest: seq<string>)
    ensures AllWords([first] + rest) <==> IsWord(first) && AllWords(rest)
  {
    var all := [first] + rest;
    if AllWords(all) {
      assert all[0] == first;
      forall i | 0 <= i < |rest| ensures IsWord(rest[i]) {
        assert all[i + 1] == rest[i];
      }
    }
  }

  /** A slug is what can be cut at its hyphens into words. */
  lemma {:induction false} SlugIsWords(s: string)
    ensures IsSlug(s) <==> AllWords(Split(s, '-'))
    decreases |s|
  {
    if s == "" {
      assert Split(s, '-')[0] == "";
    } else {
      var c, rest := s[0], s[1..];
      var parts := Split(rest, '-');
      assert s == [c] + rest;
      if c == '-' {
        assert Split(s, '-')[0] == "";
      } else {
        WordCons(c, parts[0]);
        WordsCons([c] + parts[0], parts[1..]);
        WordsCons(parts[0], parts[1..]);
        assert parts == [parts[0]] + parts[1..];
        if rest == "" {
          assert IsSlug(s) <==> IsWordChar(c);
        } else if rest[0] == '-' {
          SlugIsWords(rest[1..]);
          SlugBeforeHyphen(c, rest[1..]);
          assert s == [c, '-'] + rest[1..] && parts[0] == "" && parts[1..] == Split(rest[1..], '-');
        } else {
          SlugIsWords(rest);
          SlugBeforeWord(c, rest);
          assert parts[0] != "";
        }
      }
    }
  }

  // ---- hashes ----

  predicate AllHex(s: string) {
    forall i :: 0 <= i < |s| ==> s[i] in "0123456789abcdef"
  }

  /** The two ranges of the hash patterns are the sixteen digits. */
  lemma LowerHex(s: string)
    ensures AllHex(s) <==> forall i :: 0 <= i < |s| ==> '0' <= s[i] <= '9' || 'a' <= s[i] <= 'f'
  {
    forall i | 0 <= i < |s| ensures s[i] in "0123456789abcdef" <==> '0' <= s[i] <= '9' || 'a' <= s[i] <= 'f' {
      Digit(s[i]);
    }
  }

  lemma Digit(c: char)
    ensures c in "0123456789abcdef" <==> '0' <= c <= '9' || 'a' <= c <= 'f'
  {
    var all := "0123456789abcdef";
    assert all[0] == '0' && all[1] == '1' && all[2] == '2' && all[3] == '3' && all[4] == '4' && all[5] == '5';
    assert all[6] == '6' && all[7] == '7' && all[8] == '8' && all[9] == '9';
    assert all[10] == 'a' && all[11] == 'b' && all[12] == 'c' && all[13] == 'd' && all[14] == 'e' && all[15] == 'f';
    if '0' <= c <= '9' {
      assert all[c as int - '0' as int] == c;
    } else if 'a' <= c <= 'f' {
      assert all[c as int - 'a' as int + 10] == c;
    }
  }
}
