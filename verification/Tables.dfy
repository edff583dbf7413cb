/**
 The tables the till works on, as values. A row's id is its position in its
 table. Only products are ever deleted, and leave their place empty. Amounts and quantities are SQL numerics,
 read as exact numbers. Instants are milliseconds, in UTC.
 */
module Tables {

  import opened Commun

  type Marchand = nat

  /** The column caisse_transactions.type, over the values the till writes. */
  datatype Nature = Vente | Depense | AcompteCredit | ReglementCredit | Remboursement | Ajustement

  datatype Statut = Validee | EnCours | Gelee | Annulee | Litige

  /** A row of caisse_transactions. */
  datatype Ecriture = Ecriture(
    marchand: Marchand, nature: Nature, montant: real, statut: Statut, creeLe: int, cle: Option<string>)

  /** A row of produits; a stock of None is SQL NULL: "she did not say how many". */
  datatype Produit = Produit(
    marchand: Marchand, nom: string, stock: Option<real>, unite: Option<string>, actif: bool)

  datatype Genre = SortieVente | NonReconcilie | SansCatalogue | Annulation

  /** A row of stock_mouvements, the append-only stock ledger. */
  datatype Mouvement = Mouvement(
    marchand: Marchand, transaction: nat, produit: Option<nat>, nom: string, stockAvant: real,
    demandee: real, retranchee: real, manquant: real, unite: Option<string>, genre: Genre)

  /** caisse_sessions has one row per merchant and day. */
  type CleSession = (Marchand, int)

  datatype Session = Session(
    fond: real, declareLe: Option<int>, ouvert: bool, fermeLe: Option<int>,
    fondFinal: real, theorique: Option<real>, ecart: Option<real>)

  datatype Origine = Declaration | Correction

  /** A row of caisse_fond_journal. */
  datatype LigneFond = LigneFond(session: CleSession, ancien: Option<real>, nouveau: real, origine: Origine)

  datatype Credit = Credit(marchand: Marchand, client: string, total: real, acompte: real, paye: bool)

  /** clients has one row per merchant and name. */
  type CleClient = (Marchand, string)

  datatype Client = Client(nbCredits: nat, montantDu: real)

  /** A row of audit_logs written for a credit. */
  datatype Audit = Audit(
    marchand: Marchand, credit: nat, montant: real, resteAvant: real, resteApres: real, nature: Nature)

  datatype Etat = Etat(
    ecritures: seq<Ecriture>,
    produits: seq<Option<Produit>>,
    mouvements: seq<Mouvement>,
    clesStock: set<string>,
    sessions: map<CleSession, Session>,
    journal: seq<LigneFond>,
    credits: seq<Credit>,
    clients: map<CleClient, Client>,
    audits: seq<Audit>)

  datatype Refus =
    | Introuvable | Invalide | NonAnnulable | JourneeFermee | DejaFermee | DejaSolde | DepasseLeRestant
    | ErreurBase

  /** What a route answers: a value, or the refusal it throws. */
  datatype Reponse<+T> = Ok(valeur: T) | Refusee(refus: Refus)

  /** The row of product p is there; a deleted row leaves None at its id, which is never given again. */
  predicate Existe(ps: seq<Option<Produit>>, p: nat) { p < |ps| && ps[p].Some? }

  predicate Efface(ps: seq<Option<Produit>>, p: nat) { p < |ps| && ps[p].None? }

  /** The row exists and is the merchant's. */
  predicate EstA(ps: seq<Option<Produit>>, p: nat, m: Marchand) { Existe(ps, p) && ps[p].value.marchand == m }

  /** The stock as every reader sees it: COALESCE(stock, 0); nothing for a row that is not there. */
  function StockLu(p: Option<Produit>): real {
    if p.Some? && p.value.stock.Some? then p.value.stock.value else 0.0
  }

  const MS_PAR_JOUR: int := 86_400_000

  /** created_at::date, as a day number. */
  function Jour(instant: int): int { instant / MS_PAR_JOUR }

  const TOLERANCE_FUTUR_MS: int := 10 * 60 * 1000
  const ANCIENNETE_MAX_MS: int := 14 * MS_PAR_JOUR

  /** The booking instant a phone claims; None when it is absent, unreadable or out of bounds. */
  function DateOperationValide(brut: Option<int>, maintenant: int): (r: Option<int>)
    ensures r.Some? ==> r == brut
    ensures r.Some? <==> brut.Some? && maintenant - ANCIENNETE_MAX_MS <= brut.value <= maintenant + TOLERANCE_FUTUR_MS
  {
    if brut.None? then None
    else if brut.value > maintenant + TOLERANCE_FUTUR_MS then None
    else if brut.value < maintenant - ANCIENNETE_MAX_MS then None
    else brut
  }

  function InstantDe(date: Option<int>, maintenant: int): int {
    var d := DateOperationValide(date, maintenant);
    if d.Some? then d.value else maintenant
  }

  /** A day is the 86 400 000 milliseconds from its midnight, in UTC: instants before 1970 too. */
  lemma JourExact(t: int, jour: int)
    ensures Jour(t) == jour <==> jour * 86_400_000 <= t < (jour + 1) * 86_400_000
  {
  }

  lemma JourMonotone(a: int, b: int)
    requires a <= b
    ensures Jour(a) <= Jour(b)
  {
  }

  /**
   The days a phone can book in at instant t are exactly those from fourteen days before t to ten minutes after:
   each of them by some claim, and no other by any claim, readable or not.
   */
  lemma JoursPossibles(t: int, jour: int)
    ensures (exists date: Option<int> :: Jour(InstantDe(date, t)) == jour)
       <==> Jour(t - ANCIENNETE_MAX_MS) <= jour <= Jour(t + TOLERANCE_FUTUR_MS)
  {
    var bas, haut := t - ANCIENNETE_MAX_MS, t + TOLERANCE_FUTUR_MS;
    if Jour(bas) <= jour <= Jour(haut) {
      var x := if jour * MS_PAR_JOUR < bas then bas else jour * MS_PAR_JOUR;
      assert bas <= x <= haut && Jour(x) == jour;
      assert InstantDe(Some(x), t) == x;
    }
    forall date: Option<int> ensures Jour(bas) <= Jour(InstantDe(date, t)) <= Jour(haut) {
      JourMonotone(bas, InstantDe(date, t));
      JourMonotone(InstantDe(date, t), haut);
    }
  }

  /** lower(nom), over the ASCII letters. */
  function Minuscules(s: string): string {
    seq(|s|, i requires 0 <= i < |s| => if 'A' <= s[i] <= 'Z' then s[i] + ('a' - 'A') else s[i])
  }

  /** The key of a till line is taken: the unique index ux_caisse_tx_idempotency_key. */
  predicate ClePrise(es: seq<Ecriture>, cle: string) {
    exists i :: 0 <= i < |es| && es[i].cle == Some(cle)
  }

  /** The line a merchant already recorded under a key, if any. */
  predicate CleAMoi(es: seq<Ecriture>, marchand: Marchand, cle: string) {
    exists i :: 0 <= i < |es| && es[i].cle == Some(cle) && es[i].marchand == marchand
  }
}
