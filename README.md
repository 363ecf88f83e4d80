# Flask-Relief CSRF core in Dafny

This project models the two pieces of logic behind Flask-Relief's CSRF protection.

- **The one-time pad** (`flask_relief/crypto.py`), in module `Crypto` of `crypto.dfy`. `xor_bytes` XORs two byte strings position by position. Like Python's `zip`, it stops at the end of the shorter one. `encrypt_once` XORs the plaintext with a random key of the same length and returns `(key, ciphertext)`. `decrypt_once` applies the same XOR again and does not check any lengths. Bytes are `bv8`, so an element is one byte by its type.
- **CSRF tokens** (`flask_relief/csrf.py`), in module `Csrf` of `csrf.dfy`. `generate_csrf_token(length, alphabet)` joins `length` characters, each chosen at random from `alphabet`. With the defaults that is 20 characters from `CSRF_TOKEN_CHARACTERS`, the 62 ASCII letters and digits. `touch_csrf_token` stores a new token in the session under `'_csrf_token'` if none is there, and always returns the stored token. The session is a `Session` object whose `entries` map is updated in place. The method `Csrf.TouchCsrfToken` is proved against the pure rule `Csrf.Touch`, and the lemmas are about that rule.

Randomness becomes a parameter:
- The key that `os.urandom(len(plaintext))` would return is an argument of `Crypto.EncryptOnce`. Its only requirement is that `os.urandom` returns exactly the requested number of bytes: `|key| == |plaintext|`.
- The draws of `SystemRandom().choice` are a sequence of indices into the alphabet, one per character (`Csrf.ValidChoices`).

Python's `range(length)` is empty when `length` is negative, so a negative length produces the empty token, just like length 0 (`Csrf.Count`). `random.choice` raises `IndexError` on an empty sequence. The model returns `Failure(EmptyAlphabet)` in that case, which happens exactly when the alphabet is empty and `length > 0`.

## Model

| member | source | states |
|---|---|---|
| `Crypto.XorBytes` | flask_relief/crypto.py:14-17 | the result has length min(\|a\|, \|b\|) and element i is a[i] XOR b[i] |
| `Crypto.XorBytesAreBytes` | flask_relief/crypto.py:16 | every output element, read as a number, lies in 0..255 |
| `Crypto.XorBytesCommutative` | flask_relief/crypto.py:14-17 | xor_bytes(a, b) == xor_bytes(b, a) |
| `Crypto.XorBytesTruncates` | flask_relief/crypto.py:16 | only the first min(\|a\|, \|b\|) bytes of either input affect the result |
| `Crypto.XorBytesInvolution` | flask_relief/crypto.py:14-17 | XOR with a key at least as long as the data, applied twice, gives back the data |
| `Crypto.EncryptOnce` | flask_relief/crypto.py:20-22 | returns the key unchanged and a ciphertext of the plaintext's length, so len(key) == len(ciphertext) == len(plaintext); ciphertext[i] == key[i] XOR plaintext[i] |
| `Crypto.DecryptOnce` | flask_relief/crypto.py:25-26 | defined for all inputs without length validation; the result has length min(\|key\|, \|ciphertext\|) and is the byte-wise XOR |
| `Crypto.DecryptEncryptRoundTrip` | flask_relief/crypto.py:20-26 | decrypt_once with the key and ciphertext of encrypt_once(p) returns p |
| `Crypto.EncryptDecryptRoundTrip` | flask_relief/crypto.py:20-26 | with a key as long as the ciphertext, encrypting decrypt_once(key, c) under the same key gives back c |
| `Crypto.CiphertextIsPlaintextIffZeroKey` | flask_relief/crypto.py:21-22 | the ciphertext equals the plaintext if and only if every key byte is zero |
| `Crypto.DecryptOnceReadsPrefix` | flask_relief/crypto.py:25-26 | decrypt_once(key, c) depends only on the first min(\|key\|, \|c\|) bytes of each argument |
| `Crypto.DecryptWithShortKey` | flask_relief/crypto.py:20-26 | a key cut to j bytes decrypts, with no error, to the first j bytes of the plaintext |
| `Csrf.CsrfTokenCharactersAreAlphanumeric` | flask_relief/csrf.py:19-23 | the default alphabet has 62 characters, and a character is in it if and only if it is an ASCII letter or digit |
| `Csrf.Draw` | flask_relief/csrf.py:31 | one character per draw, in order; character i is alphabet[choices[i]] |
| `Csrf.GenerateCsrfToken` | flask_relief/csrf.py:26-31 | fails if and only if the alphabet is empty and length > 0; otherwise the token has exactly max(length, 0) characters, all from the alphabet |
| `Csrf.EmptyTokenForNonPositiveLength` | flask_relief/csrf.py:31 | a length of 0 or less yields the empty string, whatever the alphabet |
| `Csrf.SingleCharacterAlphabet` | flask_relief/csrf.py:31 | with the alphabet [c], the token is c repeated length times (the '1' * 20 case) |
| `Csrf.EveryTokenIsGenerated` | flask_relief/csrf.py:26-31 | every string of that length over the alphabet is produced by some draws; together with GenerateCsrfToken this means the possible tokens are exactly those strings |
| `Csrf.GenerateDefaultCsrfToken` | flask_relief/csrf.py:19-31 | the default call always succeeds and gives 20 characters, each an ASCII letter or digit |
| `Csrf.Touch` | flask_relief/csrf.py:34-41 | afterwards '_csrf_token' is present and the value returned is the stored one; an existing token leaves the session unchanged; otherwise the new token is returned; the keys become the old keys plus '_csrf_token'; every other entry is preserved |
| `Csrf.TouchIdempotent` | flask_relief/csrf.py:39-41 | touching a touched session changes nothing and returns the same token, whatever token the second touch would have generated |
| `Csrf.TouchCsrfToken` | flask_relief/csrf.py:34-41 | the new session and the returned token are those of `Touch` applied to the old session and the default generated token; the token is the stored value; an existing token leaves the session identical; only '_csrf_token' may be written |
| `Csrf.TouchTwice` | tests/test_csrf.py:22-28 | two touches of one session return the same token: the one already stored, or else the one the first touch generated |

## Left out

- The random sources `os.urandom` (flask_relief/crypto.py:21) and `SystemRandom` (flask_relief/csrf.py:15) are parameters. Probabilistic claims are outside the model, for example "ten maskings are pairwise distinct". These include that a random key is almost never all zero, which is what the check `ciphertext != plaintext` in tests/test_crypto.py:42 relies on; the model proves the exact condition instead (`Crypto.CiphertextIsPlaintextIffZeroKey`).
- `mask_secret`, `unmask_secret`, `constant_time_equal`, `randomize_csrf_token`, `unrandomize_csrf_token`, `CSRFToken`, `Secret` and `Relief` are imported by the tests but are not defined in crypto.py or csrf.py as given. Their definitions are not part of this model. For the same reason the model has no masked-secret wire format, no token validation and no token reset.
- The Flask `session` proxy and request context (flask_relief/csrf.py:12) are framework plumbing. Only their behaviour as a string-to-string map is modeled, as `Csrf.Session`.
- flask_relief/__init__.py re-exports another library's names by reflection. It has no logic of its own.
- flask_relief/_compat.py is a Python 2/3 shim. `int_to_byte` appears only as the fact that a value 0..255 becomes one byte, which the `bv8` type carries.
- flask_relief/static/jquery-csrf.js (browser glue that sets a header on AJAX calls), setup.py, tasks.py, tests/conftest.py and the browser and HTTP tests are packaging, build and test infrastructure.
- Python 2 byte strings versus text strings: tokens are modeled as sequences of characters and pad inputs as sequences of bytes. The model does not capture the conversion `bytearray` applies to its arguments.
