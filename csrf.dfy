/**
  CSRF token generation and the session "touch" of flask_relief/csrf.py.

  The random draws of `SystemRandom().choice` are a parameter: a sequence of
  indices into the alphabet, one per character. The Flask session is a
  `Session` object whose `entries` map the request handler updates in place.
*/
module Csrf {

  /** `CSRF_TOKEN_CHARACTERS`: the default alphabet of tokens. */
  const CsrfTokenCharacters: string :=
    "ABCDEFGHIJKLMNOPQRSTUVWXYZ"
    + "abcdefghijklmnopqrstuvwxyz"
    + "0123456789"

  /** The default `length` of `generate_csrf_token`. */
  const DefaultTokenLength: int := 20

  /** The session key under which the token is stored. */
  const CsrfTokenKey: string := "_csrf_token"

  /** `random.choice` on an empty sequence raises `IndexError`. */
  datatype Error = EmptyAlphabet

  datatype Result<T> = Success(value: T) | Failure(error: Error)

  predicate IsAsciiAlphanumeric(c: char)
  {
    'A' <= c <= 'Z' || 'a' <= c <= 'z' || '0' <= c <= '9'
  }

  /** The default alphabet holds 62 characters: exactly the ASCII letters and digits. */
  lemma CsrfTokenCharactersAreAlphanumeric()
    ensures |CsrfTokenCharacters| == 62
    ensures forall c :: c in CsrfTokenCharacters <==> IsAsciiAlphanumeric(c)
  {
    var upper, lower, digits := "ABCDEFGHIJKLMNOPQRSTUVWXYZ", "abcdefghijklmnopqrstuvwxyz", "0123456789";
    assert CsrfTokenCharacters == upper + lower + digits;
    forall c
      ensures c in CsrfTokenCharacters <==> IsAsciiAlphanumeric(c)
    {
      assert c in CsrfTokenCharacters <==> c in upper || c in lower || c in digits;
      assert c in upper <==> 'A' <= c <= 'Z';
      assert c in lower <==> 'a' <= c <= 'z';
      assert c in digits <==> '0' <= c <= '9';
    }
  }

  /** The number of iterations of `range(length)`: none for a negative length. */
  function Count(length: int): nat
  {
    if length < 0 then 0 else length
  }

  /**
    What the random source may supply for a call with this `length` and
    `alphabet`: one draw per character, each an index into the alphabet.
    An empty alphabet admits no index, and `random.choice` fails before
    drawing, so nothing is said about the draws then.
  */
  predicate ValidChoices(length: int, alphabet: string, choices: seq<nat>)
  {
    && |choices| == Count(length)
    && (|alphabet| > 0 ==> forall i :: 0 <= i < |choices| ==> choices[i] < |alphabet|)
  }

  /** The characters that `random.choice(alphabet)` picks for the given draws, in order. */
  function Draw(alphabet: string, choices: seq<nat>): (r: string)
    requires forall i :: 0 <= i < |choices| ==> choices[i] < |alphabet|
    ensures |r| == |choices|
    ensures forall i :: 0 <= i < |r| ==> r[i] == alphabet[choices[i]]
  {
    if choices == [] then [] else [alphabet[choices[0]]] + Draw(alphabet, choices[1..])
  }

  /**
    `generate_csrf_token(length, alphabet)`: `length` characters of `alphabet`
    (none when `length <= 0`); fails when a character has to be drawn from an
    empty alphabet.
  */
  function GenerateCsrfToken(length: int, alphabet: string, choices: seq<nat>): (r: Result<string>)
    requires ValidChoices(length, alphabet, choices)
    ensures r.Failure? <==> |alphabet| == 0 && length > 0
    ensures r.Success? ==> |r.value| == Count(length)
    ensures r.Success? ==> forall c :: c in r.value ==> c in alphabet
  {
    if |alphabet| == 0 && length > 0 then Failure(EmptyAlphabet) else Success(Draw(alphabet, choices))
  }

  /** A length of zero or less yields the empty string, whatever the alphabet. */
  lemma EmptyTokenForNonPositiveLength(length: int, alphabet: string, choices: seq<nat>)
    requires length <= 0
    requires ValidChoices(length, alphabet, choices)
    ensures GenerateCsrfToken(length, alphabet, choices) == Success("")
  {
  }

  function Repeat(c: char, n: nat): (r: string)
  {
    seq(n, _ => c)
  }

  /** With a one-character alphabet the token is that character repeated `length` times. */
  lemma SingleCharacterAlphabet(length: int, c: char, choices: seq<nat>)
    requires ValidChoices(length, [c], choices)
    ensures GenerateCsrfToken(length, [c], choices) == Success(Repeat(c, Count(length)))
  {
    var t, rep := GenerateCsrfToken(length, [c], choices).value, Repeat(c, Count(length));
    assert |t| == |rep|;
    forall i | 0 <= i < |t|
      ensures t[i] == rep[i]
    {
      assert t[i] in [c];
    }
    assert t == rep;
  }

  /** The first position of `c` in `alphabet`. */
  function IndexOf(alphabet: string, c: char): (k: nat)
    requires c in alphabet
    ensures k < |alphabet| && alphabet[k] == c
  {
    if alphabet[0] == c then 0 else 1 + IndexOf(alphabet[1..], c)
  }

  /**
    Every string of the right length over the alphabet is a possible token:
    with `GenerateCsrfToken`'s own contract, the tokens are exactly these strings.
  */
  lemma EveryTokenIsGenerated(length: int, alphabet: string, token: string)
    requires |token| == Count(length)
    requires forall c :: c in token ==> c in alphabet
    ensures exists choices :: ValidChoices(length, alphabet, choices)
                              && GenerateCsrfToken(length, alphabet, choices) == Success(token)
  {
    var choices := seq(|token|, i requires 0 <= i < |token| => IndexOf(alphabet, token[i]));
    assert ValidChoices(length, alphabet, choices);
    if |token| > 0 {
      assert token[0] in alphabet;
    }
    var r := GenerateCsrfToken(length, alphabet, choices);
    assert r.Success?;
    assert r.value == token;
  }

  /** `generate_csrf_token()` with its defaults: 20 ASCII letters and digits. */
  function GenerateDefaultCsrfToken(choices: seq<nat>): (t: string)
    requires ValidChoices(DefaultTokenLength, CsrfTokenCharacters, choices)
    ensures |t| == 20
    ensures forall c :: c in t ==> IsAsciiAlphanumeric(c)
  {
    CsrfTokenCharactersAreAlphanumeric();
    GenerateCsrfToken(DefaultTokenLength, CsrfTokenCharacters, choices).value
  }

  /**
    The rule `touch_csrf_token` applies to a session mapping, as a function of
    the old mapping and the token it would generate: the new mapping and the
    returned token.
  */
  function Touch(session: map<string, string>, generated: string): (r: (map<string, string>, string))
    ensures CsrfTokenKey in r.0 && r.1 == r.0[CsrfTokenKey]
    ensures CsrfTokenKey in session ==> r.0 == session
    ensures CsrfTokenKey !in session ==> r.1 == generated
    ensures r.0.Keys == session.Keys + {CsrfTokenKey}
    ensures forall k :: k in session && k != CsrfTokenKey ==> r.0[k] == session[k]
  {
    if CsrfTokenKey in session then (session, session[CsrfTokenKey])
    else (session[CsrfTokenKey := generated], generated)
  }

  /** A second touch changes nothing and returns the same token, whatever it would have generated. */
  lemma TouchIdempotent(session: map<string, string>, first: string, second: string)
    ensures Touch(Touch(session, first).0, second) == Touch(session, first)
  {
  }

  /** The Flask session: a mapping of string keys to string values, updated in place. */
  class Session {
    var entries: map<string, string>

    constructor (initial: map<string, string>)
      ensures entries == initial
    {
      entries := initial;
    }
  }

  /**
    `touch_csrf_token`: stores a freshly generated token if the session has
    none, and returns the stored token.
  */
  method TouchCsrfToken(session: Session, choices: seq<nat>) returns (token: string)
    requires ValidChoices(DefaultTokenLength, CsrfTokenCharacters, choices)
    modifies session
    ensures (session.entries, token) == Touch(old(session.entries), GenerateDefaultCsrfToken(choices))
    ensures CsrfTokenKey in session.entries && token == session.entries[CsrfTokenKey]
    ensures CsrfTokenKey in old(session.entries) ==> session.entries == old(session.entries)
    ensures CsrfTokenKey !in old(session.entries) ==> |token| == 20
    ensures forall k :: k != CsrfTokenKey ==>
              (k in session.entries <==> k in old(session.entries))
              && (k in session.entries ==> session.entries[k] == old(session.entries)[k])
  {
    if CsrfTokenKey !in session.entries {
      session.entries := session.entries[CsrfTokenKey := GenerateDefaultCsrfToken(choices)];
    }
    token := session.entries[CsrfTokenKey];
  }

  /**
    Two touches of one session return the same token: the stored one if the
    session had a token already, otherwise the one generated by the first.
  */
  method TouchTwice(initial: map<string, string>, first: seq<nat>, second: seq<nat>)
    returns (token1: string, token2: string)
    requires ValidChoices(DefaultTokenLength, CsrfTokenCharacters, first)
    requires ValidChoices(DefaultTokenLength, CsrfTokenCharacters, second)
    ensures token1 == token2
    ensures CsrfTokenKey in initial ==> token1 == initial[CsrfTokenKey]
    ensures CsrfTokenKey !in initial ==> token1 == GenerateDefaultCsrfToken(first)
  {
    var session := new Session(initial);
    token1 := TouchCsrfToken(session, first);
    assert session.entries[CsrfTokenKey] == token1;
    token2 := TouchCsrfToken(session, second);
  }
}
