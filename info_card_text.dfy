/**
 * `parseText` of the `info-card-text` component: card copy is stored with
 * `@s` standing for a semicolon, and every occurrence is replaced, left to
 * right and without overlap, as a global regular-expression replace does.
 */
module InfoCardText {

  /** `s` holds the two characters `@s` next to each other somewhere. */
  predicate HasEscape(s: string) {
    exists i :: 0 <= i < |s| - 1 && s[i] == '@' && s[i + 1] == 's'
  }

  /** The number of `@s` a left-to-right scan without overlap finds. */
  function EscapeCount(s: string): nat {
    if |s| < 2 then 0
    else if s[0] == '@' && s[1] == 's' then 1 + EscapeCount(s[2..])
    else EscapeCount(s[1..])
  }

  /** `parseText`: `text.replace(/@s/g, ';')`. */
  function ParseText(text: string): (r: string)
    ensures |r| == |text| - EscapeCount(text)
    ensures !HasEscape(r)
    ensures r != [] ==> r[0] == (if |text| >= 2 && text[0] == '@' && text[1] == 's' then ';' else text[0])
  {
    if |text| < 2 then text
    else if text[0] == '@' && text[1] == 's' then
      var rest := ParseText(text[2..]);
      NoEscapeCons(';', rest);
      [';'] + rest
    else
      var rest := ParseText(text[1..]);
      assert text[0] == '@' && rest != [] ==> rest[0] != 's' by {
        if rest != [] && text[0] == '@' {
          assert text[1] != 's';
          assert |text[1..]| >= 2 && text[1..][0] == '@' && text[1..][1] == 's' ==> rest[0] == ';';
        }
      }
      NoEscapeCons(text[0], rest);
      [text[0]] + rest
  }

  /** Putting a character in front of a string without `@s` creates none unless it makes one. */
  lemma NoEscapeCons(c: char, s: string)
    requires !HasEscape(s)
    requires c == '@' ==> s == [] || s[0] != 's'
    ensures !HasEscape([c] + s)
  {
    var t := [c] + s;
    forall i | 0 <= i < |t| - 1 && t[i] == '@'
      ensures t[i + 1] != 's'
    {
      if i > 0 {
        assert t[i] == s[i - 1] && t[i + 1] == s[i];
      }
    }
  }

  /** Text without `@s` comes back unchanged. */
  lemma {:induction false} ParseTextNoEscape(text: string)
    requires !HasEscape(text)
    ensures ParseText(text) == text
  {
    if |text| >= 2 {
      assert !(text[0] == '@' && text[1] == 's');
      assert !HasEscape(text[1..]) by {
        forall i | 0 <= i < |text[1..]| - 1 && text[1..][i] == '@'
          ensures text[1..][i + 1] != 's'
        {
          assert text[1..][i] == text[i + 1] && text[1..][i + 1] == text[i + 2];
        }
      }
      ParseTextNoEscape(text[1..]);
    }
  }

  /** Unescaping twice is unescaping once. */
  lemma ParseTextIdempotent(text: string)
    ensures ParseText(ParseText(text)) == ParseText(text)
  {
    ParseTextNoEscape(ParseText(text));
  }

  /** The encoding the card copy uses: every ';' written as `@s`. */
  function Escape(s: string): (r: string)
    ensures ';' !in r
  {
    if s == [] then []
    else (if s[0] == ';' then "@s" else [s[0]]) + Escape(s[1..])
  }

  /** Decoding the escaped form of a text without `@s` gives the text back. */
  lemma {:induction false} ParseTextEscape(s: string)
    requires !HasEscape(s)
    ensures ParseText(Escape(s)) == s
  {
    if s != [] {
      var e := Escape(s);
      var tail := Escape(s[1..]);
      assert !HasEscape(s[1..]) by {
        forall i | 0 <= i < |s[1..]| - 1 && s[1..][i] == '@'
          ensures s[1..][i + 1] != 's'
        {
          assert s[1..][i] == s[i + 1] && s[1..][i + 1] == s[i + 2];
        }
      }
      ParseTextEscape(s[1..]);
      if s[0] == ';' {
        assert e == "@s" + tail;
        assert e[2..] == tail;
      } else {
        assert e == [s[0]] + tail;
        assert e[1..] == tail;
        if s[0] == '@' && |e| >= 2 {
          assert |s| >= 2;
          assert s[1] != 's';
          assert e[1] == tail[0];
          assert tail[0] == (if s[1] == ';' then '@' else s[1]);
        }
      }
    }
  }
}
