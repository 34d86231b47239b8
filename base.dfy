/** Vocabulary shared by every part of the site model: optional values,
    identifiers, timestamps, bytes, password digests and the few string
    helpers (blankness, ASCII case folding) that the forms and the search use. */
module Base {

  datatype Option<+T> = None | Some(value: T)

  /** Primary keys handed out by the database. */
  type UserId = nat
  type TopicId = nat

  /** Seconds since the epoch. Every clock read of the application
      (`datetime.now`, `datetime.utcnow`) is passed in as one of these. */
  type Timestamp = int

  newtype byte = x: int | 0 <= x < 256

  /** A stored password credential. The salted hash of the real library is
      symbolic here: the digest remembers the password it was made from only
      so that checking is decidable; a user row holds a digest, never the
      password as a string. */
  datatype PasswordHash = Digest(preimage: string)

  /** `generate_password_hash`. */
  function GenerateHash(password: string): (h: PasswordHash)
    ensures CheckHash(h, password)
  {
    Digest(password)
  }

  /** `check_password_hash`. */
  predicate CheckHash(h: PasswordHash, password: string)
  {
    h.preimage == password
  }

  /** A digest accepts the password it was made from and no other one. */
  lemma HashChecksOnlyItsPassword(p: string, q: string)
    ensures CheckHash(GenerateHash(p), q) <==> p == q
  {
  }

  /** The characters `str.strip()` removes: Python's white space, that is
      tab to carriage return, the four information separators, space, next
      line, no-break space and the Unicode space and separator characters. */
  predicate IsSpace(c: char)
  {
    || '\t' <= c <= '\r' || '\U{1C}' <= c <= ' ' || c == '\U{85}' || c == '\U{A0}'
    || c == '\U{1680}' || '\U{2000}' <= c <= '\U{200A}' || c == '\U{2028}' || c == '\U{2029}'
    || c == '\U{202F}' || c == '\U{205F}' || c == '\U{3000}'
  }

  /** A string that is empty or holds only white space: what WTForms'
      `DataRequired` refuses. */
  predicate Blank(s: string)
  {
    forall i | 0 <= i < |s| :: IsSpace(s[i])
  }

  /** ASCII lower-casing of one character. */
  function Lower(c: char): (r: char)
    ensures 'A' <= c <= 'Z' ==> r as int == c as int + 32
    ensures !('A' <= c <= 'Z') ==> r == c
  {
    if 'A' <= c <= 'Z' then (c as int + 32) as char else c
  }

  /** ASCII lower-casing of a string, character by character. */
  function Fold(s: string): (r: string)
    ensures |r| == |s|
    ensures forall i | 0 <= i < |s| :: r[i] == Lower(s[i])
  {
    seq(|s|, i requires 0 <= i < |s| => Lower(s[i]))
  }

  predicate EndsWith(s: string, suffix: string)
  {
    |suffix| <= |s| && s[|s| - |suffix|..] == suffix
  }
}
