/** Token counts, their price in integer micro-units, and records read again so that every cached token
  is charged once. */
module AccountingPricing {
  import opened Basics

  type u64 = n: nat | n <= U64_MAX

  datatype Side = Side(total: Option<u64>, cachedRead: Option<u64>, cacheWrite: Option<u64>)

  datatype Tokens = Tokens(total: Option<u64>, input: Side, output: Side)

  datatype Entry = Entry(provider: string, model: string, inputTotal: u64, inputCachedRead: u64,
                         inputCacheWrite: u64, outputTotal: u64)

  datatype Book = Book(id: string, currency: string, entries: seq<Entry>)

  datatype Status = NotApplicable | Unpriced | Priced

  datatype Pricing = Pricing(status: Status, currency: Option<string>, amount: Option<u64>, bookId: Option<string>)

  datatype Convention = IncludesCache | ExcludesCache | Unknown

  /** A stored record, as far as its money goes. */
  datatype Record = Record(agent: string, provider: Option<string>, model: Option<string>,
                           stated: Option<string>, tokens: Tokens, pricing: Pricing)

  datatype Books = Books(beside: Option<Book>, archives: map<string, Book>, builtin: Book)

  // ----- arithmetic -----

  function SatAdd(a: nat, b: nat): u64 { if a + b <= U64_MAX then a + b else U64_MAX }

  function SatSub(a: nat, b: nat): nat { if a >= b then a - b else 0 }

  function OrZero(v: Option<u64>): u64 { v.GetOr(0) }

  const UNIT: nat := 1_000_000

  /** `price_dimension`: the product over a million, rounded down, capped. */
  function PriceDimension(tokens: Option<u64>, rate: u64): u64 {
    if tokens.None? then 0
    else
      var amount := tokens.value * rate / UNIT;
      if amount <= U64_MAX then amount else U64_MAX
  }

  function UncachedInput(t: Tokens): Option<u64> {
    if t.input.total.None? then None
    else Some(SatSub(SatSub(t.input.total.value, OrZero(t.input.cachedRead)), OrZero(t.input.cacheWrite)))
  }

  /** What is charged at the full rate: the whole input without its cached parts, and never less than nothing. */
  lemma UncachedIs(t: Tokens)
    requires t.input.total.Some?
    ensures UncachedInput(t).Some?
    ensures var rest := t.input.total.value - OrZero(t.input.cachedRead) - OrZero(t.input.cacheWrite);
            UncachedInput(t).value == if rest < 0 then 0 else rest
  {}

  /** Four dimensions, the first as given. */
  function AmountFor(uncached: Option<u64>, t: Tokens, e: Entry): u64 {
    SatAdd(SatAdd(SatAdd(SatAdd(0, PriceDimension(uncached, e.inputTotal)),
                         PriceDimension(t.input.cachedRead, e.inputCachedRead)),
                  PriceDimension(t.input.cacheWrite, e.inputCacheWrite)),
           PriceDimension(t.output.total, e.outputTotal))
  }

  function Amount(t: Tokens, e: Entry): u64 { AmountFor(UncachedInput(t), t, e) }

  /** The formula of older programs, which charged the whole input at the full rate. */
  function OldAmount(t: Tokens, e: Entry): u64 { AmountFor(t.input.total, t, e) }

  function FindEntry(entries: seq<Entry>, provider: string, model: string): (r: Option<Entry>)
    ensures r.Some? ==> r.value in entries && r.value.provider == provider && r.value.model == model
    ensures r.None? ==> forall i | 0 <= i < |entries| :: entries[i].provider != provider || entries[i].model != model
  {
    if entries == [] then None
    else if entries[0].provider == provider && entries[0].model == model then Some(entries[0])
    else FindEntry(entries[1..], provider, model)
  }

  function PriceEntry(b: Book, provider: Option<string>, model: Option<string>): Option<Entry> {
    if provider.None? || model.None? then None else FindEntry(b.entries, provider.value, model.value)
  }

  function Measured(v: Option<u64>): nat { if v.Some? then 1 else 0 }

  function PriceableMeasured(t: Tokens): nat {
    Measured(t.input.total) + Measured(t.input.cachedRead) + Measured(t.input.cacheWrite)
    + Measured(t.output.total) + Measured(t.output.cachedRead) + Measured(t.output.cacheWrite)
  }

  /** `price_tokens`, with the formula for a matching entry left open. */
  function PriceBy(amount: Entry -> u64, b: Book, provider: Option<string>, model: Option<string>, t: Tokens): Pricing {
    if PriceableMeasured(t) == 0 && t.total.None? then Pricing(NotApplicable, None, None, None)
    else if PriceableMeasured(t) == 0 then Pricing(Unpriced, Some(b.currency), None, Some(b.id))
    else
      var entry := PriceEntry(b, provider, model);
      if entry.None? then Pricing(Unpriced, Some(b.currency), None, Some(b.id))
      else Pricing(Priced, Some(b.currency), Some(amount(entry.value)), Some(b.id))
  }

  function PriceTokens(b: Book, provider: Option<string>, model: Option<string>, t: Tokens): Pricing {
    PriceBy(e => Amount(t, e), b, provider, model, t)
  }

  function OldPriceTokens(b: Book, provider: Option<string>, model: Option<string>, t: Tokens): Pricing {
    PriceBy(e => OldAmount(t, e), b, provider, model, t)
  }

  // ----- the exact cost -----

  /** Tokens times rate, over all four dimensions: millionths of the cost. */
  function Millionths(uncached: Option<u64>, t: Tokens, e: Entry): nat {
    OrZero(uncached) * e.inputTotal + OrZero(t.input.cachedRead) * e.inputCachedRead
    + OrZero(t.input.cacheWrite) * e.inputCacheWrite + OrZero(t.output.total) * e.outputTotal
  }

  function ExactCost(t: Tokens, e: Entry): real {
    Millionths(UncachedInput(t), t, e) as real / 1000000.0
  }

  lemma DimensionIsClose(v: Option<u64>, rate: u64)
    requires PriceDimension(v, rate) < U64_MAX
    ensures UNIT * PriceDimension(v, rate) <= OrZero(v) * rate < UNIT * PriceDimension(v, rate) + UNIT
  {
    if v.Some? {
      Rounded(v.value * rate);
    }
  }

  lemma DimensionIsBelow(v: Option<u64>, rate: u64)
    ensures UNIT * PriceDimension(v, rate) <= OrZero(v) * rate
  {
    if v.Some? {
      Rounded(v.value * rate);
    }
  }

  lemma Rounded(p: nat)
    ensures UNIT * (p / UNIT) <= p < UNIT * (p / UNIT) + UNIT
  {}

  /** A price is never above the exact cost, and unless it is capped it is below by less than four
      micro-units. */
  lemma PriceIsClose(t: Tokens, e: Entry)
    ensures Amount(t, e) as real <= ExactCost(t, e)
    ensures Amount(t, e) < U64_MAX ==> ExactCost(t, e) < Amount(t, e) as real + 4.0
  {
    var u := UncachedInput(t);
    DimensionIsBelow(u, e.inputTotal);
    DimensionIsBelow(t.input.cachedRead, e.inputCachedRead);
    DimensionIsBelow(t.input.cacheWrite, e.inputCacheWrite);
    DimensionIsBelow(t.output.total, e.outputTotal);
    if Amount(t, e) < U64_MAX {
      DimensionIsClose(u, e.inputTotal);
      DimensionIsClose(t.input.cachedRead, e.inputCachedRead);
      DimensionIsClose(t.input.cacheWrite, e.inputCacheWrite);
      DimensionIsClose(t.output.total, e.outputTotal);
    }
    hide PriceDimension, UncachedInput;
    assert UNIT * Amount(t, e) <= Millionths(u, t, e);
    if Amount(t, e) < U64_MAX {
      assert Millionths(u, t, e) < UNIT * Amount(t, e) + 4 * UNIT;
    }
  }

  // ----- reading a record again -----

  function ConventionOf(r: Record): Convention {
    if r.stated.Some? then
      if r.stated.value == "input-total-includes-cache" then IncludesCache
      else if r.stated.value == "input-total-excludes-cache" then ExcludesCache
      else Unknown
    else if r.agent == "codex" then IncludesCache
    else if r.agent == "claude-code" || r.agent == "pi" then ExcludesCache
    else Unknown
  }

  /** `restate_tokens`: the input total with its cached parts added in. */
  function Restate(t: Tokens): Tokens {
    if t.input.total.None? then t
    else
      var inclusive := SatAdd(SatAdd(t.input.total.value, OrZero(t.input.cachedRead)), OrZero(t.input.cacheWrite));
      t.(input := t.input.(total := Some(inclusive)),
         total := if t.total.Some? then Some(SatAdd(inclusive, OrZero(t.output.total))) else None)
  }

  function ReadTokens(r: Record): Tokens {
    if ConventionOf(r) == ExcludesCache then Restate(r.tokens) else r.tokens
  }

  predicate ChargesCacheTwice(r: Record) {
    ConventionOf(r) == IncludesCache && r.stated.None?
    && SatAdd(OrZero(r.tokens.input.cachedRead), OrZero(r.tokens.input.cacheWrite)) > 0
  }

  function NamedBook(books: Books, id: Option<string>): Option<Book> {
    if id.None? then None
    else if books.beside.Some? && books.beside.value.id == id.value then books.beside
    else if id.value in books.archives then Some(books.archives[id.value])
    else if books.builtin.id == id.value then Some(books.builtin)
    else None
  }

  function Reread(r: Record, books: Books): Pricing {
    if !ChargesCacheTwice(r) then r.pricing
    else
      var book := NamedBook(books, r.pricing.bookId);
      if book.Some? then PriceTokens(book.value, r.provider, r.model, ReadTokens(r))
      else Pricing(Unpriced, r.pricing.currency, None, r.pricing.bookId)
  }

  /** The counts fit, so that adding the cached parts in is exact. */
  predicate Fits(t: Tokens) {
    t.input.total.Some? && t.input.total.value > 0 ==>
      t.input.total.value + OrZero(t.input.cachedRead) + OrZero(t.input.cacheWrite) <= U64_MAX
  }

  /** What restating adds, pricing takes away again, exactly where the counts fit. */
  lemma RestateInverts(t: Tokens)
    ensures UncachedInput(Restate(t)) == t.input.total <==> Fits(t)
    ensures OrZero(UncachedInput(Restate(t))) <= OrZero(t.input.total)
    ensures PriceableMeasured(Restate(t)) == PriceableMeasured(t)
  {}

  lemma MoreCostsMore(a: Option<u64>, b: Option<u64>, rate: u64)
    requires OrZero(a) <= OrZero(b)
    ensures PriceDimension(a, rate) <= PriceDimension(b, rate)
  {
    if a.Some? && b.Some? {
      Scaled(a.value, b.value, rate);
      Divided(a.value * rate, b.value * rate);
    }
  }

  lemma Scaled(a: nat, b: nat, rate: nat)
    requires a <= b
    ensures a * rate <= b * rate
  {}

  lemma Divided(p: nat, q: nat)
    requires p <= q
    ensures p / UNIT <= q / UNIT
  {}

  lemma AmountGrows(a: Option<u64>, b: Option<u64>, t: Tokens, e: Entry)
    requires OrZero(a) <= OrZero(b)
    ensures AmountFor(a, t, e) <= AmountFor(b, t, e)
  {
    MoreCostsMore(a, b, e.inputTotal);
    hide PriceDimension;
  }

  lemma SameParts(t: Tokens, u: Option<u64>, e: Entry)
    ensures AmountFor(u, Restate(t), e) == AmountFor(u, t, e)
  {
    hide PriceDimension;
  }

  /** A rate that tells one token from another. */
  const PER_TOKEN: Entry := Entry("", "", 1_000_000, 0, 0, 0)

  lemma PerToken(u: Option<u64>, t: Tokens)
    ensures AmountFor(u, t, PER_TOKEN) == OrZero(u)
  {
    PerTokenDimension(u);
    Free(t.input.cachedRead);
    Free(t.input.cacheWrite);
    Free(t.output.total);
    hide PriceDimension;
  }

  lemma PerTokenDimension(u: Option<u64>)
    ensures PriceDimension(u, 1_000_000) == OrZero(u)
  {
    if u.Some? {
      assert u.value * 1_000_000 / UNIT == u.value;
    }
  }

  lemma Free(u: Option<u64>)
    ensures PriceDimension(u, 0) == 0
  {
    if u.Some? {
      assert u.value * 0 == 0;
    }
  }

  /** Where the stored counts leave the cache out, today's price of the restated counts is the old price of
      the stored ones, at every rate, exactly if the counts fit; otherwise it is never above it. */
  lemma RestatedCostsTheSame(t: Tokens)
    ensures (forall e :: Amount(Restate(t), e) == OldAmount(t, e)) <==> Fits(t)
    ensures forall e :: Amount(Restate(t), e) <= OldAmount(t, e)
  {
    RestateInverts(t);
    hide Restate, UncachedInput, AmountFor;
    forall e ensures Amount(Restate(t), e) <= OldAmount(t, e)
             ensures Fits(t) ==> Amount(Restate(t), e) == OldAmount(t, e)
    {
      SameParts(t, UncachedInput(Restate(t)), e);
      AmountGrows(UncachedInput(Restate(t)), t.input.total, t, e);
    }
    if !Fits(t) {
      SameParts(t, UncachedInput(Restate(t)), PER_TOKEN);
      PerToken(UncachedInput(Restate(t)), t);
      PerToken(t.input.total, t);
      NotFitting(t);
      assert Amount(Restate(t), PER_TOKEN) != OldAmount(t, PER_TOKEN);
    }
  }

  lemma NotFitting(t: Tokens)
    requires !Fits(t)
    ensures OrZero(UncachedInput(Restate(t))) < OrZero(t.input.total)
  {}

  /** Where the counts include the cache, today's price is at most the old one, and the same where nothing
      is cached. */
  lemma IncludedCostsNoMore(t: Tokens, e: Entry)
    ensures Amount(t, e) <= OldAmount(t, e)
    ensures SatAdd(OrZero(t.input.cachedRead), OrZero(t.input.cacheWrite)) == 0 ==> Amount(t, e) == OldAmount(t, e)
  {
    AmountGrows(UncachedInput(t), t.input.total, t, e);
    hide PriceDimension;
  }

  /** The record's pricing is what its writer computed from `book`: by today's formula where it states that
      the cache is included, by the old one where it states nothing. */
  predicate WrittenFrom(r: Record, book: Book) {
    if r.stated.Some? then
      ConventionOf(r) == IncludesCache && r.pricing == PriceTokens(book, r.provider, r.model, r.tokens)
    else r.pricing == OldPriceTokens(book, r.provider, r.model, r.tokens)
  }

  /** A book with that id is beside the records, in their archives or built in. */
  predicate IsReachable(books: Books, id: string) {
    (books.beside.Some? && books.beside.value.id == id) || id in books.archives || books.builtin.id == id
  }

  /** The book a record names is looked for beside it, then in the archives, then among the built in, and
      there is none exactly if it is in none of the three; a record that names none has none. */
  lemma NamedBookIs(books: Books, id: string)
    ensures books.beside.Some? && books.beside.value.id == id ==> NamedBook(books, Some(id)) == books.beside
    ensures (books.beside.None? || books.beside.value.id != id) && id in books.archives ==>
              NamedBook(books, Some(id)) == Some(books.archives[id])
    ensures (books.beside.None? || books.beside.value.id != id) && id !in books.archives && books.builtin.id == id ==>
              NamedBook(books, Some(id)) == Some(books.builtin)
    ensures NamedBook(books, Some(id)) == None <==> !IsReachable(books, id)
    ensures NamedBook(books, None) == None
  {}

  /** The first place that has a book with the writer's id has the writer's book. */
  predicate KeepsBook(books: Books, book: Book) {
    if books.beside.Some? && books.beside.value.id == book.id then books.beside.value == book
    else if book.id in books.archives then books.archives[book.id] == book
    else books.builtin.id == book.id ==> books.builtin == book
  }

  /** The cache was charged twice by the old formula: the counts include it, and something of it was used. */
  predicate WasChargedTwice(r: Record) {
    && r.stated.None? && r.agent == "codex"
    && (OrZero(r.tokens.input.cachedRead) > 0 || OrZero(r.tokens.input.cacheWrite) > 0)
  }

  /** Every token is charged once on reading: the reading's money is today's price, by the writer's book, of
      the tokens as read. There is none, neither an amount nor a part of one, just where the stored amount
      charged the cache twice and no place has a book of that id. */
  lemma ReadingChargesOnce(r: Record, book: Book, books: Books)
    requires WrittenFrom(r, book) && ConventionOf(r) != Unknown
    requires ConventionOf(r) == ExcludesCache ==> Fits(r.tokens)
    requires KeepsBook(books, book)
    ensures !WasChargedTwice(r) || IsReachable(books, book.id) ==>
              Reread(r, books) == PriceTokens(book, r.provider, r.model, ReadTokens(r))
    ensures WasChargedTwice(r) && !IsReachable(books, book.id) ==>
              Reread(r, books) == Pricing(Unpriced, Some(book.currency), None, Some(book.id))
  {
    RestatedCostsTheSame(r.tokens);
    hide AmountFor;
  }

  /** Which convention a record follows: the one it states, when this reader knows it, and otherwise, where it
      states none, the one of its agent. */
  lemma ConventionsAre(r: Record)
    ensures ConventionOf(r) == IncludesCache <==>
              r.stated == Some("input-total-includes-cache") || (r.stated == None && r.agent == "codex")
    ensures ConventionOf(r) == ExcludesCache <==>
              || r.stated == Some("input-total-excludes-cache")
              || (r.stated == None && r.agent in {"claude-code", "pi"})
  {}

  /** A dimension that has a price of its own was measured. */
  predicate IsMeasured(t: Tokens) {
    || t.input.total.Some? || t.input.cachedRead.Some? || t.input.cacheWrite.Some?
    || t.output.total.Some? || t.output.cachedRead.Some? || t.output.cacheWrite.Some?
  }

  /** Entry `i` is the first of the book for a provider and model. */
  predicate IsFirstFor(b: Book, i: int, provider: Option<string>, model: Option<string>) {
    && 0 <= i < |b.entries| && provider == Some(b.entries[i].provider) && model == Some(b.entries[i].model)
    && forall j | 0 <= j < i :: provider != Some(b.entries[j].provider) || model != Some(b.entries[j].model)
  }

  lemma {:induction false} EntryIsFirst(b: Book, provider: string, model: string)
    ensures var e := FindEntry(b.entries, provider, model);
            && (e.Some? <==> exists i :: IsFirstFor(b, i, Some(provider), Some(model)))
            && (forall i | IsFirstFor(b, i, Some(provider), Some(model)) :: e == Some(b.entries[i]))
    decreases |b.entries|
  {
    if b.entries != [] {
      var rest := b.(entries := b.entries[1..]);
      EntryIsFirst(rest, provider, model);
      var hit := b.entries[0].provider == provider && b.entries[0].model == model;
      if hit {
        assert IsFirstFor(b, 0, Some(provider), Some(model));
      }
      forall i | IsFirstFor(b, i, Some(provider), Some(model)) && i > 0 ensures IsFirstFor(rest, i - 1, Some(provider), Some(model)) {}
      forall i | !hit && IsFirstFor(rest, i, Some(provider), Some(model)) ensures IsFirstFor(b, i + 1, Some(provider), Some(model)) {
        forall j | 0 <= j < i + 1 ensures b.entries[j].provider != provider || b.entries[j].model != model {
          if j > 0 {
            assert b.entries[j] == rest.entries[j - 1];
          }
        }
      }
    }
  }

  /** What pricing says: nothing applies where nothing was measured; otherwise there is an amount exactly where
      a priced dimension was measured and the book has an entry for the provider and model, and it is that of
      the first. */
  lemma PriceTokensMeans(b: Book, provider: Option<string>, model: Option<string>, t: Tokens)
    ensures var p := PriceTokens(b, provider, model, t);
            && (p.status == NotApplicable <==> !IsMeasured(t) && t.total == None)
            && (p.status == Priced <==> IsMeasured(t) && exists i :: IsFirstFor(b, i, provider, model))
            && (p.amount.Some? <==> p.status == Priced)
            && (forall i | IsFirstFor(b, i, provider, model) && IsMeasured(t) :: p.amount == Some(Amount(t, b.entries[i])))
            && p.currency == (if p.status == NotApplicable then None else Some(b.currency))
            && p.bookId == (if p.status == NotApplicable then None else Some(b.id))
  {
    hide AmountFor, FindEntry;
    if provider.Some? && model.Some? {
      EntryIsFirst(b, provider.value, model.value);
    }
  }

  /** Restating adds the cached parts to the input and to the whole, where they were measured and as far as 64
      bits go, and leaves every other count. */
  lemma RestatedCounts(t: Tokens)
    ensures var r := Restate(t);
            && r.output == t.output && r.input.cachedRead == t.input.cachedRead && r.input.cacheWrite == t.input.cacheWrite
            && (t.input.total == None ==> r == t)
            && (t.input.total.Some? ==>
                  var inclusive := t.input.total.value + OrZero(t.input.cachedRead) + OrZero(t.input.cacheWrite);
                  && r.input.total == Some(if inclusive <= U64_MAX then inclusive else U64_MAX)
                  && (t.total == None ==> r.total == None)
                  && (t.total.Some? ==>
                        var whole := r.input.total.value + OrZero(t.output.total);
                        r.total == Some(if whole <= U64_MAX then whole else U64_MAX)))
  {}

  /** Counts that do not fit: all the input tokens a record can state, and one cached token besides. */
  const TOO_MANY: Tokens := Tokens(None, Side(Some(U64_MAX), Some(1), None), Side(None, None, None))

  /** One of them is then not charged for. */
  lemma CountsCanBeTooMany()
    ensures !Fits(TOO_MANY)
    ensures UncachedInput(Restate(TOO_MANY)) == Some(U64_MAX - 1)
    ensures Amount(Restate(TOO_MANY), PER_TOKEN) == U64_MAX - 1 && OldAmount(TOO_MANY, PER_TOKEN) == U64_MAX
  {
    var read := Restate(TOO_MANY);
    assert UncachedInput(read) == Some(U64_MAX - 1);
    hide AmountFor;
    PerToken(UncachedInput(read), read);
    PerToken(TOO_MANY.input.total, TOO_MANY);
  }
}
