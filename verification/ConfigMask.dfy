/** Hiding quoted credentials in configuration texts (`redactConfig` of src/inventory-redaction.ts). */
module ConfigMask {
  import opened Text

  const PLACEHOLDER: string := "********"
  const PASSWORD: string := "password"
  const SECRET: string := "secret"
  const BIRD_PRIVATE_KEY: string := "bird private key"
  const REMOTE_PUBLIC_KEY: string := "remote public key"

  predicate IsQuote(c: char) {
    c == '"' || c == '\''
  }

  // ----- One credential

  function KeywordBy(letter: char): string {
    if letter == 'p' then PASSWORD
    else if letter == 's' then SECRET
    else if letter == 'b' then BIRD_PRIVATE_KEY
    else if letter == 'r' then REMOTE_PUBLIC_KEY
    else ""
  }

  /** The length of the keyword the text starts with, in either case; 0 if there is none. */
  function Keyword(s: string): (n: nat)
    ensures n <= |s|
  {
    if s == "" then 0
    else
      var word := KeywordBy(LowerChar(s[0]));
      if |word| <= |s| && Lower(s[..|word|]) == word then |word| else 0
  }

  function Spaces(s: string): (n: nat)
    ensures n <= |s|
  {
    if s == "" || !IsSpace(s[0]) then 0 else 1 + Spaces(s[1..])
  }

  /** Where the first quote that is not escaped stands; the length of the text if there is none. */
  function Close(s: string, quote: char, escaped: bool): (n: nat)
    ensures n <= |s| && (n < |s| ==> s[n] == quote)
  {
    if s == "" || (!escaped && s[0] == quote) then 0
    else 1 + Close(s[1..], quote, !escaped && s[0] == '\\')
  }

  /** The opening quote, after a keyword and white space. */
  function OpenAt(s: string): (n: nat)
    ensures n <= |s|
  {
    Keyword(s) + Spaces(s[Keyword(s)..])
  }

  predicate Opens(s: string, afterWord: bool) {
    && !afterWord && 0 < Keyword(s) < OpenAt(s) < |s|
    && IsQuote(s[OpenAt(s)])
  }

  /** The length of the credential between its quotes, or of the rest of the text. */
  function Body(s: string): nat
    requires OpenAt(s) < |s|
  {
    Close(s[OpenAt(s) + 1..], s[OpenAt(s)], false)
  }

  predicate IsCredential(s: string, afterWord: bool) {
    Opens(s, afterWord) && OpenAt(s) + 1 + Body(s) < |s|
  }

  function Behind(s: string): (rest: string)
    requires OpenAt(s) < |s| && OpenAt(s) + 1 + Body(s) < |s|
    ensures |rest| < |s|
  {
    s[OpenAt(s) + 1..][Body(s) + 1..]
  }

  /** The text up to the opening quote, the placeholder, and a closing quote before `rest`. */
  function Replaced(s: string, rest: string): string
    requires OpenAt(s) < |s|
  {
    s[..OpenAt(s) + 1] + (PLACEHOLDER + [s[OpenAt(s)]] + rest)
  }

  // ----- Whole texts

  /** Every credential is replaced, quotes aside; the search goes on behind it. */
  function Hidden(s: string, afterWord: bool): string {
    if s == "" then ""
    else if IsCredential(s, afterWord) then Replaced(s, Hidden(Behind(s), false))
    else [s[0]] + Hidden(s[1..], IsWord(s[0]))
  }

  /** The credentials found in a text. */
  function Credentials(s: string, afterWord: bool): seq<string> {
    if s == "" then []
    else if IsCredential(s, afterWord) then
      [s[OpenAt(s) + 1..][..Body(s)]] + Credentials(Behind(s), false)
    else Credentials(s[1..], IsWord(s[0]))
  }

  function Mask(s: string): string {
    Hidden(s, false)
  }

  // ----- Where a credential opens depends on the text up to its quote

  lemma {:induction false} SpacesIs(s: string, n: nat)
    requires n < |s| && (forall i :: 0 <= i < n ==> IsSpace(s[i])) && !IsSpace(s[n])
    ensures Spaces(s) == n
  {
    if n > 0 {
      SpacesIs(s[1..], n - 1);
    }
  }

  lemma {:induction false} SpacesShape(s: string)
    ensures forall i :: 0 <= i < Spaces(s) ==> IsSpace(s[i])
    ensures Spaces(s) < |s| ==> !IsSpace(s[Spaces(s)])
  {
    if s != "" && IsSpace(s[0]) {
      SpacesShape(s[1..]);
      assert forall i :: 1 <= i < Spaces(s) ==> s[i] == s[1..][i - 1];
    }
  }

  lemma KeywordHasNoQuote(letter: char, i: nat)
    requires i < |KeywordBy(letter)|
    ensures !IsQuote(KeywordBy(letter)[i])
  {
    assert forall c :: c in PASSWORD || c in SECRET ==> !IsQuote(c);
    assert forall c :: c in BIRD_PRIVATE_KEY || c in REMOTE_PUBLIC_KEY ==> !IsQuote(c);
  }

  lemma OpensShape(s: string, afterWord: bool)
    requires Opens(s, afterWord)
    ensures IsSpace(s[OpenAt(s) - 1]) && forall i :: 0 <= i < OpenAt(s) ==> !IsQuote(s[i])
  {
    var k := Keyword(s);
    SpacesShape(s[k..]);
    forall i | 0 <= i < OpenAt(s)
      ensures !IsQuote(s[i]) && (i >= k ==> IsSpace(s[i]))
    {
      if i < k {
        assert Lower(s[..k])[i] == LowerChar(s[i]);
        KeywordHasNoQuote(LowerChar(s[0]), i);
      } else {
        assert s[i] == s[k..][i - k];
      }
    }
  }

  lemma OpensAlike(s: string, t: string, afterWord: bool)
    requires Opens(s, afterWord) && OpenAt(s) < |t| && t[..OpenAt(s) + 1] == s[..OpenAt(s) + 1]
    ensures Opens(t, afterWord) && OpenAt(t) == OpenAt(s) && t[OpenAt(s)] == s[OpenAt(s)]
  {
    var k, o := Keyword(s), OpenAt(s);
    forall i | 0 <= i <= o
      ensures t[i] == s[i]
    {
      assert t[..o + 1][i] == s[..o + 1][i];
    }
    assert t[..k] == s[..k];
    assert Keyword(t) == k;
    SpacesShape(s[k..]);
    assert forall i :: 0 <= i <= o - k ==> t[k..][i] == s[k..][i];
    SpacesIs(t[k..], o - k);
  }

  // ----- Which texts are credentials

  lemma {:induction false} ClosesAt(body: string, quote: char, rest: string)
    requires quote !in body && '\\' !in body
    ensures Close(body + [quote] + rest, quote, false) == |body|
  {
    var s := body + [quote] + rest;
    if body != "" {
      assert s[1..] == body[1..] + [quote] + rest && s[0] == body[0];
      ClosesAt(body[1..], quote, rest);
    }
  }

  lemma KeywordIs(keyword: string, rest: string)
    requires Lower(keyword) in {"password", "secret", "bird private key", "remote public key"}
    ensures Keyword(keyword + rest) == |keyword| > 0
  {
    assert |Lower(keyword)| == |keyword| && keyword != "";
    assert Lower(keyword)[0] == LowerChar(keyword[0]);
    assert (keyword + rest)[..|keyword|] == keyword;
  }

  lemma SpacesBefore(gap: string, rest: string)
    requires (forall c :: c in gap ==> IsSpace(c)) && rest != "" && !IsSpace(rest[0])
    ensures Spaces(gap + rest) == |gap|
  {
    SpacesIs(gap + rest, |gap|);
  }

  lemma Cut(a: string, b: string, c: char, d: string)
    ensures
      var s, n := a + (b + ([c] + d)), |a| + |b|;
      && s[|a|..] == b + ([c] + d) && s[n] == c && s[n + 1..] == d && s[..n + 1] == a + b + [c]
      && a + [c] + d == a + ("" + ([c] + d))
  {
  }

  /** A keyword in either case, white space and a quoted text: the text is hidden, and the search goes on behind it. */
  lemma CredentialIsHidden(keyword: string, gap: string, quote: char, body: string, rest: string)
    requires Lower(keyword) in {"password", "secret", "bird private key", "remote public key"}
    requires gap != "" && (forall c :: c in gap ==> IsSpace(c)) && quote in "\"'" && quote !in body && '\\' !in body
    ensures
      var head, s := keyword + gap + [quote], keyword + (gap + ([quote] + (body + [quote] + rest)));
      Hidden(s, false) == head + ("********" + [quote] + Hidden(rest, false)) && !IsCredential(s, true)
  {
    var quoted := body + [quote] + rest;
    var tail := gap + ([quote] + quoted);
    var s, o := keyword + tail, |keyword| + |gap|;
    KeywordIs(keyword, tail);
    SpacesBefore(gap, [quote] + quoted);
    ClosesAt(body, quote, rest);
    assert !IsWord(quote) && IsQuote(quote);
    hide Keyword, Spaces, Close, IsSpace, IsQuote, Lower, Hidden;
    Cut(keyword, gap, quote, quoted);
    assert OpenAt(s) == o;
    Cut(body, "", quote, rest);
    assert Behind(s) == rest;
    HiddenStep(s, false);
  }

  // ----- Escapes

  /** Whether the character after the text is escaped. */
  function Escaping(s: string, escaped: bool): bool {
    if s == "" then escaped else Escaping(s[1..], !escaped && s[0] == '\\')
  }

  lemma {:induction false} CloseOfConcat(s: string, t: string, quote: char, escaped: bool)
    ensures Close(s + t, quote, escaped)
      == if Close(s, quote, escaped) < |s| then Close(s, quote, escaped)
         else |s| + Close(t, quote, Escaping(s, escaped))
  {
    if s == "" {
      assert s + t == t;
    } else {
      assert (s + t)[1..] == s[1..] + t;
      CloseOfConcat(s[1..], t, quote, !escaped && s[0] == '\\');
    }
  }

  lemma {:induction false} NothingEscaped(s: string, c: char, escaped: bool)
    requires c != '\\'
    ensures !Escaping(s + [c], escaped)
  {
    if s == "" {
      assert s + [c] == [c] && [c][1..] == "";
    } else {
      assert (s + [c])[1..] == s[1..] + [c];
      NothingEscaped(s[1..], c, !escaped && s[0] == '\\');
    }
  }

  // ----- What hiding keeps

  lemma HiddenStep(s: string, afterWord: bool)
    requires s != ""
    ensures IsCredential(s, afterWord) ==>
      && OpenAt(s) < |s| && IsQuote(s[OpenAt(s)]) && OpenAt(s) + 1 + Body(s) < |s|
      && Hidden(s, afterWord) == Replaced(s, Hidden(Behind(s), false))
    ensures !IsCredential(s, afterWord) ==> Hidden(s, afterWord) == [s[0]] + Hidden(s[1..], IsWord(s[0]))
  {
  }

  lemma CredentialParts(s: string)
    requires OpenAt(s) < |s| && OpenAt(s) + 1 + Body(s) < |s|
    ensures
      var open, tail := OpenAt(s), s[OpenAt(s) + 1..];
      && s[..open + 1] == s[..open] + [s[open]] && s == s[..open + 1] + tail
      && tail == tail[..Body(s)] + [s[open]] + Behind(s)
  {
    assert s[OpenAt(s) + 1..][Body(s)] == s[OpenAt(s)];
    hide OpenAt, Body;
    TwoCuts(s, OpenAt(s), Body(s));
  }

  lemma TwoCuts(s: string, i: nat, j: nat)
    requires i + 1 + j < |s|
    ensures s[..i + 1] == s[..i] + [s[i]] && s == s[..i + 1] + s[i + 1..]
    ensures s[i + 1..] == s[i + 1..][..j] + [s[i + 1..][j]] + s[i + 1..][j + 1..]
  {
  }

  /** Up to its first quote a text is kept. */
  lemma {:induction false} PrefixKept(s: string, afterWord: bool, n: nat)
    requires n < |Hidden(s, afterWord)| && forall i :: 0 <= i < n ==> !IsQuote(Hidden(s, afterWord)[i])
    ensures n < |s| && Hidden(s, afterWord)[..n + 1] == s[..n + 1]
  {
    hide Hidden, IsCredential, IsWord, OpenAt, Body, Replaced;
    if s == "" {
      NothingHidden(afterWord);
      return;
    }
    HiddenStep(s, afterWord);
    if IsCredential(s, afterWord) {
      ReplacedKeeps(s, Hidden(Behind(s), false), n);
    } else if n > 0 {
      var rest := Hidden(s[1..], IsWord(s[0]));
      assert forall i :: 0 <= i < n - 1 ==> rest[i] == Hidden(s, afterWord)[i + 1];
      PrefixKept(s[1..], IsWord(s[0]), n - 1);
      assert Hidden(s, afterWord)[..n + 1] == [s[0]] + rest[..n] && s[..n + 1] == [s[0]] + s[1..][..n];
    } else {
      assert s[..1] == [s[0]] == Hidden(s, afterWord)[..1];
    }
  }

  lemma NothingHidden(afterWord: bool)
    ensures Hidden("", afterWord) == ""
  {
  }

  lemma ReplacedKeeps(s: string, rest: string, n: nat)
    requires OpenAt(s) < |s| && IsQuote(s[OpenAt(s)])
    requires n < |Replaced(s, rest)| && forall i :: 0 <= i < n ==> !IsQuote(Replaced(s, rest)[i])
    ensures n <= OpenAt(s) && Replaced(s, rest)[..n + 1] == s[..n + 1]
  {
    hide OpenAt, IsQuote;
    assert Replaced(s, rest)[OpenAt(s)] == s[OpenAt(s)];
  }

  /** The quote a credential opens with is the first quote of the text. */
  lemma OpenIs(s: string, afterWord: bool, n: nat)
    requires Opens(s, afterWord) && n < |s| && IsQuote(s[n]) && forall i :: 0 <= i < n ==> !IsQuote(s[i])
    ensures OpenAt(s) == n
  {
    OpensShape(s, afterWord);
  }

  predicate LeftOpen(s: string, quote: char, escaped: bool) {
    Close(s, quote, escaped) == |s|
  }

  lemma NoCredential(s: string, afterWord: bool, n: nat)
    requires n < |s| && IsQuote(s[n]) && (forall i :: 0 <= i < n ==> !IsQuote(s[i]))
      && LeftOpen(s[n + 1..], s[n], false)
    ensures !IsCredential(s, afterWord) && !IsWord(s[n])
  {
    if IsCredential(s, afterWord) {
      OpenIs(s, afterWord, n);
    }
  }

  /** Up to a quote that opens no credential, and is the first, nothing is hidden. */
  lemma {:induction false} Unhidden(s: string, afterWord: bool, n: nat)
    requires n < |s| && IsQuote(s[n]) && (forall i :: 0 <= i < n ==> !IsQuote(s[i]))
      && LeftOpen(s[n + 1..], s[n], false)
    ensures Hidden(s, afterWord) == s[..n + 1] + Hidden(s[n + 1..], false)
  {
    hide Hidden, IsCredential, IsWord, IsQuote, LeftOpen;
    NoCredential(s, afterWord, n);
    HiddenStep(s, afterWord);
    if n > 0 {
      assert s[1..][n..] == s[n + 1..];
      Unhidden(s[1..], IsWord(s[0]), n - 1);
      assert s[..n + 1] == [s[0]] + s[1..][..n];
    } else {
      assert s[..1] == [s[0]];
    }
  }

  lemma OpenParts(head: string, tail: string, quote: char, escaped: bool)
    requires !Escaping(head, escaped)
    ensures LeftOpen(head + tail, quote, escaped) <==> LeftOpen(head, quote, escaped) && LeftOpen(tail, quote, false)
  {
    CloseOfConcat(head, tail, quote, escaped);
  }

  lemma PlaceholderIsOpen(quote: char, other: char)
    requires quote != other && IsQuote(quote) && IsQuote(other)
    ensures LeftOpen(PLACEHOLDER + [other], quote, false) && !Escaping(PLACEHOLDER + [other], false)
  {
    NothingEscaped(PLACEHOLDER, other, false);
    CloseFree(PLACEHOLDER + [other], quote);
  }

  lemma {:induction false} CloseFree(s: string, quote: char)
    requires quote !in s && '\\' !in s
    ensures LeftOpen(s, quote, false)
  {
    if s != "" {
      CloseFree(s[1..], quote);
    }
  }

  /** The quote a credential opens with is not escaped, for a blank stands before it. */
  lemma OtherQuote(s: string, open: nat, quote: char, escaped: bool)
    requires 0 < open < |s| && IsSpace(s[open - 1]) && IsQuote(s[open])
    requires LeftOpen(s[..open + 1], quote, escaped)
    ensures s[open] != quote && !Escaping(s[..open + 1], escaped)
  {
    var before := s[..open];
    NothingEscaped(s[..open - 1], s[open - 1], escaped);
    assert before == s[..open - 1] + [s[open - 1]];
    OpenParts(before, [s[open]], quote, escaped);
    NothingEscaped(before, s[open], escaped);
    assert s[..open + 1] == before + [s[open]];
  }

  lemma Reopened(
    head: string, body: string, closing: char, kept: string, rest: string, quote: char, escaped: bool)
    requires IsQuote(quote) && IsQuote(closing) && quote != closing && !Escaping(head, escaped)
    requires LeftOpen(head + (body + [closing] + kept), quote, escaped)
    ensures LeftOpen(kept, quote, false)
    ensures LeftOpen(rest, quote, false) ==> LeftOpen(head + (PLACEHOLDER + [closing] + rest), quote, escaped)
  {
    hide LeftOpen, Escaping;
    OpenParts(head, body + [closing] + kept, quote, escaped);
    NothingEscaped(body, closing, false);
    OpenParts(body + [closing], kept, quote, false);
    PlaceholderIsOpen(quote, closing);
    OpenParts(PLACEHOLDER + [closing], rest, quote, false);
    OpenParts(head, PLACEHOLDER + [closing] + rest, quote, escaped);
  }

  lemma ReplacedStaysOpen(s: string, rest: string, quote: char, escaped: bool)
    requires 0 < OpenAt(s) < |s| && IsSpace(s[OpenAt(s) - 1]) && IsQuote(s[OpenAt(s)])
    requires OpenAt(s) + 1 + Body(s) < |s|
    requires IsQuote(quote) && LeftOpen(s, quote, escaped)
    ensures LeftOpen(Behind(s), quote, false)
    ensures LeftOpen(rest, quote, false) ==> LeftOpen(Replaced(s, rest), quote, escaped)
  {
    var open := OpenAt(s);
    var head, tail, closing := s[..open + 1], s[open + 1..], s[open];
    NothingEscaped(s[..open], closing, escaped);
    CredentialParts(s);
    hide LeftOpen, Escaping, OpenAt, Body, Behind, IsSpace, IsQuote, IsWord, Close;
    OpenParts(head, tail, quote, escaped);
    OtherQuote(s, open, quote, escaped);
    Reopened(head, tail[..Body(s)], closing, Behind(s), rest, quote, escaped);
  }

  /** A text without the end of a quotation still has none when the credentials in it are hidden. */
  lemma {:induction false} StaysOpen(s: string, afterWord: bool, quote: char, escaped: bool)
    requires IsQuote(quote) && LeftOpen(s, quote, escaped)
    ensures LeftOpen(Hidden(s, afterWord), quote, escaped)
  {
    if s == "" {
      NothingHidden(afterWord);
      return;
    }
    HiddenStep(s, afterWord);
    if IsCredential(s, afterWord) {
      OpensShape(s, afterWord);
      hide Hidden, IsCredential, LeftOpen, IsQuote, IsSpace, OpenAt, Body;
      ReplacedStaysOpen(s, Hidden(Behind(s), false), quote, escaped);
      StaysOpen(Behind(s), false, quote, false);
    } else {
      hide Hidden, IsCredential, IsQuote;
      StaysOpen(s[1..], IsWord(s[0]), quote, !escaped && s[0] == '\\');
    }
  }

  // ----- Hiding twice

  /** Hiding what follows makes no credential of what was none. */
  lemma StaysNoCredential(s: string, afterWord: bool)
    requires s != "" && !IsCredential(s, afterWord)
    ensures !IsCredential(Hidden(s, afterWord), afterWord)
  {
    hide Hidden, Opens, OpenAt, Close, IsWord;
    var hidden := Hidden(s, afterWord);
    if IsCredential(hidden, afterWord) {
      var open := OpenAt(hidden);
      OpensShape(hidden, afterWord);
      PrefixKept(s, afterWord, open);
      OpensAlike(hidden, s, afterWord);
      assert LeftOpen(s[open + 1..], s[open], false);
      Unhidden(s, afterWord, open);
      assert hidden[open + 1..] == Hidden(s[open + 1..], false);
      StaysOpen(s[open + 1..], false, s[open], false);
      assert false;
    }
  }

  /** A credential stays one, with the placeholder in it. */
  lemma ReplacedIsCredential(s: string, afterWord: bool, rest: string)
    requires IsCredential(s, afterWord)
    ensures
      var replaced := Replaced(s, rest);
      && IsCredential(replaced, afterWord) && OpenAt(replaced) == OpenAt(s) && Body(replaced) == |PLACEHOLDER|
      && Behind(replaced) == rest && replaced[OpenAt(s) + 1..][..|PLACEHOLDER|] == PLACEHOLDER
      && Replaced(replaced, rest) == replaced
  {
    var replaced, open := Replaced(s, rest), OpenAt(s);
    assert replaced[..open + 1] == s[..open + 1];
    OpensAlike(s, replaced, afterWord);
    assert replaced[open + 1..] == PLACEHOLDER + [s[open]] + rest == PLACEHOLDER + ([s[open]] + rest);
    CloseFree(PLACEHOLDER, s[open]);
    assert !Escaping(PLACEHOLDER, false) by {
      NothingEscaped("*******", '*', false);
      assert PLACEHOLDER == "*******" + ['*'];
    }
    CloseOfConcat(PLACEHOLDER, [s[open]] + rest, s[open], false);
  }

  lemma CredentialStep(s: string, afterWord: bool)
    requires s != ""
    ensures IsCredential(s, afterWord) ==>
      && OpenAt(s) < |s| && OpenAt(s) + 1 + Body(s) < |s|
      && Credentials(s, afterWord) == [s[OpenAt(s) + 1..][..Body(s)]] + Credentials(Behind(s), false)
    ensures !IsCredential(s, afterWord) ==> Credentials(s, afterWord) == Credentials(s[1..], IsWord(s[0]))
  {
  }

  lemma {:induction false} HiddenCredentials(s: string, afterWord: bool)
    ensures Hidden(Hidden(s, afterWord), afterWord) == Hidden(s, afterWord)
    ensures |Credentials(Hidden(s, afterWord), afterWord)| == |Credentials(s, afterWord)|
    ensures AllHidden(Credentials(Hidden(s, afterWord), afterWord))
  {
    if s == "" {
      NothingHidden(afterWord);
      return;
    }
    hide Hidden, Credentials, AllHidden, IsCredential, IsWord, OpenAt, Body;
    HiddenStep(s, afterWord);
    CredentialStep(s, afterWord);
    var hidden := Hidden(s, afterWord);
    assert hidden != "";
    if IsCredential(s, afterWord) {
      var rest := Hidden(Behind(s), false);
      HiddenCredentials(Behind(s), false);
      ReplacedIsCredential(s, afterWord, rest);
      FirstHidden(PLACEHOLDER, Credentials(rest, false));
    } else {
      HiddenCredentials(s[1..], IsWord(s[0]));
      StaysNoCredential(s, afterWord);
      assert hidden[1..] == Hidden(s[1..], IsWord(s[0])) && hidden[0] == s[0];
    }
    HiddenStep(hidden, afterWord);
    CredentialStep(hidden, afterWord);
  }

  predicate AllHidden(credentials: seq<string>) {
    forall c :: c in credentials ==> c == PLACEHOLDER
  }

  lemma FirstHidden(credential: string, more: seq<string>)
    ensures AllHidden([credential] + more) <==> credential == PLACEHOLDER && AllHidden(more)
  {
    if AllHidden([credential] + more) {
      assert credential in [credential] + more;
      forall c | c in more
        ensures c == PLACEHOLDER
      {
        assert c in [credential] + more;
      }
    }
  }

  lemma {:induction false} NothingToHide(s: string, afterWord: bool)
    requires AllHidden(Credentials(s, afterWord))
    ensures Hidden(s, afterWord) == s
    decreases |s|
  {
    if s == "" {
      NothingHidden(afterWord);
      return;
    }
    hide Hidden, Credentials, AllHidden, IsCredential, IsWord, OpenAt, Body, Replaced;
    HiddenStep(s, afterWord);
    CredentialStep(s, afterWord);
    if IsCredential(s, afterWord) {
      FirstHidden(s[OpenAt(s) + 1..][..Body(s)], Credentials(Behind(s), false));
      NothingToHide(Behind(s), false);
      ReplacedItself(s);
    } else {
      NothingToHide(s[1..], IsWord(s[0]));
    }
  }

  lemma ReplacedItself(s: string)
    requires OpenAt(s) < |s| && OpenAt(s) + 1 + Body(s) < |s| && s[OpenAt(s) + 1..][..Body(s)] == PLACEHOLDER
    ensures Replaced(s, Behind(s)) == s
  {
    CredentialParts(s);
    hide OpenAt, Body;
  }

  /** Masking changes exactly the texts in which some credential is not the placeholder already. */
  lemma MaskChanges(s: string)
    ensures Mask(s) == s <==> AllHidden(Credentials(s, false))
  {
    HiddenCredentials(s, false);
    if AllHidden(Credentials(s, false)) {
      NothingToHide(s, false);
    }
  }

  /** Masking twice is masking once, and afterwards no credential can be read. */
  lemma MaskTwice(s: string)
    ensures Mask(Mask(s)) == Mask(s)
    ensures |Credentials(Mask(s), false)| == |Credentials(s, false)|
    ensures AllHidden(Credentials(Mask(s), false))
  {
    HiddenCredentials(s, false);
  }
}
