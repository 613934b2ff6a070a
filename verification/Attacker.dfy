/**
 * What can be made of the byte strings on the wire without a secret key: anything guessed, wrapped or sealed
 * afresh, and whatever is wrapped for a key the attacker owns. Opened texts are texts, not byte strings.
 */
module Attacker {
  import opened Envelope

  datatype Recipe =
    | Seen(b: Bytes)
    | Guess(data: seq<nat>)
    | Wrap(owner: nat, content: Recipe)
    | Unwrap(wrapped: Recipe)
    | Seal(key: Recipe, iv: Recipe, text: string)

  function Made(x: Recipe): Bytes {
    match x
    case Seen(b) => b
    case Guess(data) => Raw(data)
    case Wrap(owner, content) => Oaep(owner, Made(content))
    case Unwrap(wrapped) => if Made(wrapped).Oaep? then Made(wrapped).content else Made(wrapped)
    case Seal(key, iv, text) => Gcm(Made(key), Made(iv), text)
  }

  /** The secret is not guessed, and only what is wrapped for an owned key is unwrapped. */
  predicate Feasible(x: Recipe, wire: set<Bytes>, owned: set<nat>, secret: Bytes) {
    match x
    case Seen(b) => b in wire
    case Guess(data) => Raw(data) != secret
    case Wrap(_, content) => Feasible(content, wire, owned, secret)
    case Unwrap(wrapped) => Feasible(wrapped, wire, owned, secret) && Made(wrapped).Oaep?
      && Made(wrapped).owner in owned
    case Seal(key, iv, _) => Feasible(key, wire, owned, secret) && Feasible(iv, wire, owned, secret)
  }

  ghost predicate CanMake(b: Bytes, wire: set<Bytes>, owned: set<nat>, secret: Bytes) {
    exists x :: Feasible(x, wire, owned, secret) && Made(x) == b
  }

  /** It does not give away the secret, and is sealed under it only if it was on the wire. */
  predicate Safe(b: Bytes, wire: set<Bytes>, owned: set<nat>, secret: Bytes) {
    && b != secret
    && (b.Oaep? && b.owner in owned ==> Safe(b.content, wire, owned, secret))
    && (b.Gcm? && b.key == secret ==> b in wire)
  }

  predicate Mentions(b: Bytes, secret: Bytes) {
    b == secret || (b.Oaep? && Mentions(b.content, secret))
      || (b.Gcm? && (Mentions(b.key, secret) || Mentions(b.iv, secret)))
  }

  lemma SealedMentions(b: Bytes, secret: Bytes)
    requires b.Gcm? && b.key == secret
    ensures Mentions(b, secret)
  {
    assert Mentions(b.key, secret);
  }

  lemma {:induction false} UnmentionedIsSafe(b: Bytes, wire: set<Bytes>, owned: set<nat>, secret: Bytes)
    requires !Mentions(b, secret)
    ensures Safe(b, wire, owned, secret)
  {
    if b.Oaep? {
      UnmentionedIsSafe(b.content, wire, owned, secret);
    }
  }

  lemma {:induction false} RecipeIsSafe(x: Recipe, wire: set<Bytes>, owned: set<nat>, secret: Bytes)
    requires secret.Raw? && forall b | b in wire :: Safe(b, wire, owned, secret)
    requires Feasible(x, wire, owned, secret)
    ensures Safe(Made(x), wire, owned, secret)
  {
    match x
    case Seen(_) =>
    case Guess(_) =>
    case Wrap(_, content) => RecipeIsSafe(content, wire, owned, secret);
    case Unwrap(wrapped) => RecipeIsSafe(wrapped, wire, owned, secret);
    case Seal(key, _, _) => RecipeIsSafe(key, wire, owned, secret);
  }

  /** From a wire that gives nothing away, nothing new can be made that is sealed under the secret. */
  lemma NothingForged(b: Bytes, wire: set<Bytes>, owned: set<nat>, secret: Bytes)
    requires secret.Raw? && forall w | w in wire :: Safe(w, wire, owned, secret)
    requires CanMake(b, wire, owned, secret)
    ensures b != secret && (b.Gcm? && b.key == secret ==> b in wire)
  {
    var x :| Feasible(x, wire, owned, secret) && Made(x) == b;
    RecipeIsSafe(x, wire, owned, secret);
  }
}
