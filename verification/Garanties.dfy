/** What holds from the start: the laws of every reachable state, with no invariant left to assume. */
module Garanties {
  import opened Tables
  import opened Sommes
  import opened Caisse
  import Stock
  import StockLois
  import StockRuns
  import ConstatLois
  import CreditLois
  import JourneeLois
  import ReglementLois
  import SessionLois
  import AccordLois
  import FondLois
  import RejeuLois
  import Reservation
  import ReservationLois
  import Entrelacements
  import Jetons
  import Miroir

  // ── The till ────────────────────────────────────────────────────────────

  lemma VideEnRegle()
    ensures ConstatLois.LoiConstat(VIDE) && ConstatLois.Saine(VIDE) && CreditLois.LoiCredit(VIDE) && CreditLois.LoiDette(VIDE)
    ensures CreditLois.TotauxHonnetes(VIDE) && FondLois.LoiFond(VIDE) && StockLois.LoiStock(VIDE, [])
    ensures StockLois.StocksPositifs(VIDE) && StockLois.LoiRestitution(VIDE) && RejeuLois.ClesUniques(VIDE.ecritures)
    ensures CreditLois.LoiNombre(VIDE)
  {
  }

  /**
   The books after any requests at all, in any order and at any instants: the stock is its ledger,
   a cancelled sale still holds some of a product only if its row is gone, credits agree with their payments, with
   their count and with all the till's lines — with those it counts if and only if none of them stands cancelled —,
   the float journal replays the floats, no key is recorded twice.
   */
  lemma LivresEnRegle(rs: seq<Requete>, m: Marchand, tx: nat, p: nat)
    ensures var s := Executer(VIDE, rs);
      && StockLois.LoiStock(s, StockRuns.Reperes([], VIDE, rs))
      && (tx < |s.ecritures| && s.ecritures[tx].statut == Annulee ==> Stock.Net(s.mouvements, tx, p) == 0.0 || Efface(s.produits, p))
      && CreditLois.LoiCredit(s) && CreditLois.LoiNombre(s)
      && Somme(CreditLois.PaiementsDe(m), CreditLois.TracesCaisse(s.ecritures)) == Somme(CreditLois.AcomptesDe(m), s.credits)
      && (AccordLois.Accord(s, m) <==> AccordLois.AucunAnnule(s.ecritures, m))
      && FondLois.LoiFond(s)
      && RejeuLois.ClesUniques(s.ecritures)
  {
    var s := Executer(VIDE, rs);
    VideEnRegle();
    StockRuns.RunStock(VIDE, [], rs);
    StockRuns.RunRestitution(VIDE, rs, tx, p);
    if tx < |s.ecritures| {
      assert StockLois.RestitutionJuste(s, tx, p);
      Stock.NetEstPrisMoinsRendu(s.mouvements, tx, p);
    }
    CreditLois.RunCredit(VIDE, rs);
    CreditLois.RunNombre(VIDE, rs);
    CreditLois.CaisseEtCreditsDAccord(s, m);
    ConstatLois.RunSaine(VIDE, rs);
    AccordLois.AccordSsiRienAnnule(s, m);
    FondLois.RunFond(VIDE, rs);
    RejeuLois.RunClesUniques(VIDE, rs);
  }

  /** Till and credits agree after every step of a run exactly when no step cancels one of her credit payment lines. */
  lemma CaisseEtCredits(rs: seq<Requete>, m: Marchand)
    ensures (forall k :: 0 <= k <= |rs| ==> AccordLois.Accord(ConstatLois.Apres(VIDE, rs, k), m))
       <==> (forall k :: 0 <= k < |rs| ==> !AccordLois.AnnuleUnPaiement(ConstatLois.Apres(VIDE, rs, k), rs[k], m))
  {
    VideEnRegle();
    AccordLois.RunAccord(VIDE, rs, m);
  }

  /**
   From empty tables: the numbers of a closed day are those of one closing of the run, after which nothing opened the
   day again; and they stay, however the run goes on without opening it.
   */
  lemma ConstatsGraves(rs: seq<Requete>, cle: CleSession, suite: seq<Requete>) returns (k: nat)
    requires JourneeLois.Clos(Executer(VIDE, rs), cle)
    requires forall l :: 0 <= l < |suite| ==> !JourneeLois.Rouvre(suite[l], cle)
    ensures k < |rs| && JourneeLois.FermePar(Executer(VIDE, rs[..k]), rs[k], Executer(VIDE, rs), cle)
    ensures JourneeLois.Clos(Executer(VIDE, rs + suite), cle)
    ensures JourneeLois.MemeConstat(Executer(VIDE, rs).sessions[cle], Executer(VIDE, rs + suite).sessions[cle])
  {
    VideEnRegle();
    k := JourneeLois.ConstatVientDe(VIDE, rs, cle);
    JourneeLois.ConstatGrave(Executer(VIDE, rs), suite, cle);
    ExecuterConcat(VIDE, rs, suite);
  }

  /** From empty tables, with no client sending the text of its default key, a settlement without a key is never lost. */
  lemma ReglementsSansCle(rs: seq<Requete>, m: Marchand, id: nat, t: int)
    requires forall k :: 0 <= k < |rs| ==> !ReglementLois.Envoie(rs[k], ReglementLois.ParDefaut(id))
    ensures var s := Executer(VIDE, rs);
      id < |s.credits| && s.credits[id].marchand == m && ReglementLois.JourOuvert(s, m, t) && s.credits[id].acompte < Arrondir(s.credits[id].total) ==>
        ReglementLois.ReglementComplet(s, m, id, t)
  {
    VideEnRegle();
    ReglementLois.ReglementSansCle(VIDE, rs, m, id, t);
  }

  /**
   A cancelled sale, wherever the cancellation falls between two runs: it holds nothing of product p in the end if
   and only if p's row was there at that moment or the sale held nothing of p then.
   */
  lemma AnnulationsExactes(avant: seq<Requete>, r: Requete, apres: seq<Requete>, id: nat, p: nat)
    requires StockRuns.Annule(Executer(VIDE, avant), r, id)
    ensures var s := Executer(VIDE, avant);
      Stock.Net(Executer(VIDE, avant + [r] + apres).mouvements, id, p) == 0.0
      <==> Existe(s.produits, p) || Stock.Net(s.mouvements, id, p) == 0.0
  {
    VideEnRegle();
    StockRuns.RunRestitution(VIDE, avant, id, p);
    StockRuns.AnnulationDefinitive(Executer(VIDE, avant), r, id, p, apres);
    assert (avant + [r])[..|avant|] == avant;
    ExecuterConcat(VIDE, avant + [r], apres);
  }

  /** Closed days stay true after every step of a run exactly when no step is one the closed-day guard misses. */
  lemma ConstatsVrais(rs: seq<Requete>)
    ensures (forall k :: 0 <= k <= |rs| ==> ConstatLois.LoiConstat(ConstatLois.Apres(VIDE, rs, k)))
       <==> (forall k :: 0 <= k < |rs| ==> !ConstatLois.Perturbe(ConstatLois.Apres(VIDE, rs, k), rs[k]))
  {
    VideEnRegle();
    ConstatLois.RunConstat(VIDE, rs);
  }

  /** With honest totals, what a client owes is what her credits leave to pay. */
  lemma DettesExactes(rs: seq<Requete>, cle: CleClient)
    requires forall k :: 0 <= k < |rs| && rs[k].RCredit? && rs[k].credit.total.Nombre? ==> CreditLois.TotalHonnete(rs[k].credit.total.n)
    ensures var s := Executer(VIDE, rs);
      cle in s.clients ==> s.clients[cle].montantDu == Somme(CreditLois.ResteDe(cle), s.credits)
  {
    VideEnRegle();
    CreditLois.RunDette(VIDE, rs);
    assert CreditLois.DetteJuste(Executer(VIDE, rs), cle);
  }

  /** With no negative stock typed in, no stock is ever negative. */
  lemma StocksJamaisNegatifs(rs: seq<Requete>, p: nat)
    requires forall k :: 0 <= k < |rs| ==> !StockRuns.SaisieNegative(rs[k])
    ensures p < |Executer(VIDE, rs).produits| ==> StockLu(Executer(VIDE, rs).produits[p]) >= 0.0
  {
    VideEnRegle();
    StockRuns.RunStocksPositifs(VIDE, rs);
  }

  // ── Reservations, concurrently ──────────────────────────────────────────

  /** Any transactions, each about to start on the tables t. */
  function AuDepart(t: Reservation.Marche, ws: seq<Entrelacements.Travail>): Entrelacements.Systeme {
    Entrelacements.Systeme(t, seq(|ws|, i requires 0 <= i < |ws| => Entrelacements.Processus(ws[i], Entrelacements.Debut)),
                           map[], map[], map[])
  }

  /**
   Whatever transactions start on sane tables, however their statements interleave and whichever
   abort: available + reserved + sold of each publication is what it was plus the shortages of the
   operations that committed, nothing available is negative, and no process commits twice.
   */
  lemma ReservationsConcurrentes(t: Reservation.Marche, ws: seq<Entrelacements.Travail>, coups: seq<Entrelacements.Coup>, p: nat)
    requires ReservationLois.Saine(t) && p < |t.publications|
    ensures var s := AuDepart(t, ws);
      var fin, ids := Entrelacements.JouerTout(s, coups).t, Entrelacements.Commits(s, coups);
      && ReservationLois.Saine(fin) && |fin.publications| == |t.publications|
      && (forall k :: 0 <= k < |ids| ==> ids[k] < |ws|)
      && (forall k, l :: 0 <= k < l < |ids| ==> ids[k] != ids[l])
      && ReservationLois.Masse(fin, p)
         == ReservationLois.Masse(t, p) + ReservationLois.Manques(t, Entrelacements.Operations(s.ps, ids), p)
  {
    var s := AuDepart(t, ws);
    assert Entrelacements.Coherent(s);
    Entrelacements.Serialisable(s, coups);
    Entrelacements.ConservationEntrelacee(s, coups, p);
  }

  // ── Sessions and catalogue ──────────────────────────────────────────────

  lemma SessionsPlafonnees(es: seq<Jetons.Evenement>, user: nat)
    ensures |Jetons.Actifs(Jetons.Run(Jetons.Registre([], 0), es).jetons, user)| <= Jetons.MAX_SESSIONS
  {
    Jetons.RunSain(Jetons.Registre([], 0), es);
  }

  /** From an empty table: a token presented after its expiry is refused, whatever the run since it was given. */
  lemma JetonsExpires(avant: seq<Jetons.Evenement>, apres: seq<Jetons.Evenement>, i: nat, t: int, expire: int, existe: bool)
    requires i < |Jetons.Run(Jetons.Registre([], 0), avant).jetons| && Jetons.Run(Jetons.Registre([], 0), avant).jetons[i].expire < t
    ensures var s := Jetons.Run(Jetons.Registre([], 0), avant);
      Jetons.Tourner(Jetons.Run(s, apres), s.jetons[i].id, t, expire, existe).1.Some?
  {
    Jetons.RunSain(Jetons.Registre([], 0), avant);
    SessionLois.RunRangs(Jetons.Registre([], 0), avant);
    SessionLois.ExpireJamaisTourne(Jetons.Run(Jetons.Registre([], 0), avant), apres, i, t, expire, existe);
  }

  lemma AdoptionsEnRegle(es: seq<Miroir.Evenement>)
    ensures Miroir.LoiAdoption(Miroir.Run(Miroir.Catalogue(map[], []), es))
  {
    Miroir.RunAdoption(Miroir.Catalogue(map[], []), es);
  }
}
