/**
 Creating, paying and settling credits: what each route answers and writes, the keys the server derives, and the
 settlement without a key, which is never taken for another credit's.
 */
module ReglementLois {
  import opened Commun
  import opened Tables
  import opened Sommes
  import opened Caisse
  import opened CreditLois
  import VenteLois

  // ── Rounding and the text of an id ──────────────────────────────────────

  /** Math.round: the whole number nearest to x, the upper one when two are. */
  lemma ArrondirExact(x: real, n: int)
    ensures Arrondir(x) == n as real <==> x - 0.5 < n as real <= x + 0.5
  {
    var k, y := (x + 0.5).Floor, x + 0.5;
    assert Arrondir(x) == k as real && x - 0.5 == y - 1.0;
    EntierDans(y, k, n);
  }

  lemma EntierDans(y: real, k: int, n: int)
    requires k as real <= y < (k + 1) as real
    ensures k as real == n as real <==> y - 1.0 < n as real <= y
  {
    if y - 1.0 < n as real <= y {
      assert n as real < (k + 1) as real && (k - 1) as real < n as real;
      assert n < k + 1 && k - 1 < n;
    }
  }

  function Chiffre(c: char): nat { if '0' <= c <= '9' then (c - '0') as nat else 0 }

  /** The number a text of digits writes. */
  function Lire(t: string): nat { if t == "" then 0 else 10 * Lire(t[..|t| - 1]) + Chiffre(t[|t| - 1]) }

  lemma {:induction false} TexteSeLit(id: nat)
    ensures Lire(TexteId(id)) == id
  {
    var c := "0123456789"[id % 10];
    assert Chiffre(c) == id % 10;
    if id < 10 {
      assert TexteId(id) == [c] && [c][..0] == "";
    } else {
      TexteSeLit(id / 10);
      assert TexteId(id) == TexteId(id / 10) + [c];
      assert (TexteId(id / 10) + [c])[..|TexteId(id / 10)|] == TexteId(id / 10);
    }
  }

  lemma TexteInjectif(i: nat, j: nat)
    ensures TexteId(i) == TexteId(j) <==> i == j
  {
    TexteSeLit(i);
    TexteSeLit(j);
  }

  // ── Derived keys ────────────────────────────────────────────────────────

  lemma Suffixe(p: string, a: string, b: string)
    ensures p + a == p + b <==> a == b
  {
    assert (p + a)[|p|..] == a && (p + b)[|p|..] == b;
  }

  const REGLEMENT := "credit-reglement-"
  const CREATION := "credit-creation-"
  const ACOMPTE := "credit-acompte-"

  lemma PrefixesDistincts(a: string, b: string)
    ensures REGLEMENT + a != CREATION + b && REGLEMENT + a != ACOMPTE + b && CREATION + a != ACOMPTE + b
  {
    assert (REGLEMENT + a)[7] == 'r' && (CREATION + b)[7] == 'c' && (ACOMPTE + b)[7] == 'a' && (CREATION + a)[7] == 'c';
  }

  /** The text under which a request books its payment: the key it sends, or the credit's id. */
  function Texte(cle: Option<string>, id: nat): string { if cle.Some? then cle.value else TexteId(id) }

  /**
   Two settlements have the same key exactly when their texts are the same: without keys, for one credit only. The
   same holds of first payments; and no settlement, first payment or part payment ever has another's kind of key.
   */
  lemma ClesDerivees(k: Option<string>, i: nat, l: Option<string>, j: nat, c: string)
    ensures CleReglement(k, i) == CleReglement(l, j) <==> Texte(k, i) == Texte(l, j)
    ensures CleCreation(k, i) == CleCreation(l, j) <==> Texte(k, i) == Texte(l, j)
    ensures CleReglement(None, i) == CleReglement(None, j) <==> i == j
    ensures CleCreation(None, i) == CleCreation(None, j) <==> i == j
    ensures CleReglement(k, i) != CleCreation(l, j) && CleReglement(k, i) != CleAcompte(c) && CleCreation(l, j) != CleAcompte(c)
  {
    TexteInjectif(i, j);
    assert CleReglement(k, i) == REGLEMENT + Texte(k, i) && CleReglement(l, j) == REGLEMENT + Texte(l, j);
    assert CleCreation(k, i) == CREATION + Texte(k, i) && CleCreation(l, j) == CREATION + Texte(l, j);
    Suffixe(REGLEMENT, Texte(k, i), Texte(l, j));
    Suffixe(CREATION, Texte(k, i), Texte(l, j));
    Suffixe(REGLEMENT, TexteId(i), TexteId(j));
    Suffixe(CREATION, TexteId(i), TexteId(j));
    PrefixesDistincts(Texte(k, i), Texte(l, j));
    PrefixesDistincts(Texte(k, i), c);
    PrefixesDistincts(Texte(l, j), c);
  }

  lemma AcomptesDistincts(a: string, b: string)
    ensures CleAcompte(a) == CleAcompte(b) <==> a == b
  {
    Suffixe(ACOMPTE, a, b);
  }

  // ── The primitive, and creation ─────────────────────────────────────────

  /** A payment of `montant` on credit `id`, from tables s: the credit, the client's debt, the till line and the audit row. */
  ghost predicate PaiementEcrit(s: Etat, s': Etat, m: Marchand, id: nat, montant: real, cle: string, t: int)
    requires id < |s.credits|
  {
    var c := s.credits[id];
    var reste := Arrondir(c.total) - Arrondir(c.acompte);
    var nature := if montant == reste then ReglementCredit else AcompteCredit;
    && s'.credits == s.credits[id := Credit(c.marchand, c.client, c.total, c.acompte + montant, c.paye || montant == reste)]
    && s'.ecritures == s.ecritures + [Ecriture(m, nature, montant, Validee, t, Some(cle))]
    && s'.audits == s.audits + [Audit(m, id, montant, reste, reste - montant, nature)]
    && s'.clients.Keys == s.clients.Keys
    && (forall k: CleClient :: k in s.clients && k != (m, c.client) ==> s'.clients[k] == s.clients[k])
    && ((m, c.client) in s.clients ==>
          s'.clients[(m, c.client)] == Client(s.clients[(m, c.client)].nbCredits, Max(0.0, s.clients[(m, c.client)].montantDu - montant)))
    && s'.produits == s.produits && s'.mouvements == s.mouvements && s'.clesStock == s.clesStock
    && s'.sessions == s.sessions && s'.journal == s.journal
  }

  predicate CleLibre(s: Etat, cle: string) { forall i :: 0 <= i < |s.ecritures| ==> s.ecritures[i].cle != Some(cle) }

  /** Taking money on a credit: who is refused and why, what a replay answers, and what a payment writes. */
  lemma EncaisserExact(s: Etat, m: Marchand, id: nat, brut: real, cle: string, t: int)
    ensures var (s', rep) := EncaisserCredit(s, m, id, brut, cle, t);
      var sien := id < |s.credits| && s.credits[id].marchand == m;
      && (rep == Refusee(Invalide) <==> Arrondir(brut) <= 0.0 || cle == "")
      && (rep == Refusee(Introuvable) <==> Arrondir(brut) > 0.0 && cle != "" && !sien)
      && (rep.Refusee? ==> s' == s)
      && (Arrondir(brut) > 0.0 && cle != "" && sien ==>
            var reste := Arrondir(s.credits[id].total) - Arrondir(s.credits[id].acompte);
            && (!CleLibre(s, cle) ==> s' == s && rep.Ok? && rep.valeur.rejeu)
            && (CleLibre(s, cle) ==>
                  && (rep == Refusee(DejaSolde) <==> reste <= 0.0)
                  && (rep == Refusee(DepasseLeRestant) <==> 0.0 < reste < Arrondir(brut))
                  && (rep.Ok? <==> Arrondir(brut) <= reste)
                  && (rep.Ok? ==> PaiementEcrit(s, s', m, id, Arrondir(brut), cle, t)
                                  && rep.valeur == Encaissement(false, if Arrondir(brut) == reste then ReglementCredit else AcompteCredit, reste - Arrondir(brut)))))
  {
  }

  lemma ArrondirZero()
    ensures Arrondir(0.0) == 0.0
  {
    assert (0.0 + 0.5).Floor == 0;
  }

  /** What a creation must bring before any first payment: a client, a total, a due date, and no more paid than owed. */
  predicate Creable(d: DemandeCredit) {
    d.client != "" && d.total.Nombre? && d.echeance && (d.acompte.Nombre? ==> d.acompte.n <= d.total.n) && (d.acompte.Absente? ==> 0.0 <= d.total.n)
  }

  /** Its first payment, if it brings one, is taken: on an open day, rounded above 0 and within the rounded total — or already in the till. */
  predicate PremierPris(s: Etat, m: Marchand, d: DemandeCredit, t: int)
    requires d.total.Nombre?
  {
    d.acompte.Nombre? && d.acompte.n > 0.0 ==>
      && ((m, Jour(t)) in s.sessions ==> s.sessions[(m, Jour(t))].ouvert)
      && Arrondir(d.acompte.n) > 0.0
      && (CleLibre(s, CREATION + Texte(d.cle, |s.credits|)) ==> Arrondir(d.acompte.n) <= Arrondir(d.total.n))
  }

  /** The amount the creation puts in the till. */
  function PremierVersement(s: Etat, d: DemandeCredit): real {
    if d.acompte.Nombre? && d.acompte.n > 0.0 && CleLibre(s, CREATION + Texte(d.cle, |s.credits|)) then Arrondir(d.acompte.n) else 0.0
  }

  /** The credit and its client's debt, with nothing paid yet. */
  ghost predicate CreditPose(s: Etat, p: Etat, m: Marchand, client: string, total: real) {
    && p == s.(credits := s.credits + [Credit(m, client, total, 0.0, false)], clients := p.clients)
    && p.clients.Keys == s.clients.Keys + {(m, client)}
    && (forall k: CleClient :: k in s.clients && k != (m, client) ==> p.clients[k] == s.clients[k])
    && p.clients[(m, client)] ==
       (if (m, client) in s.clients then Client(s.clients[(m, client)].nbCredits + 1, s.clients[(m, client)].montantDu + total) else Client(1, total))
  }

  /**
   A credit is created if and only if its body is complete and its first payment, if any, is taken; refused, not even
   the client or the credit stays. Its first payment is in the till exactly when its key was not.
   */
  lemma CreerExact(s: Etat, m: Marchand, d: DemandeCredit, t: int)
    ensures var (s', rep) := CreerCredit(s, m, d, t);
      && (rep.Ok? <==> Creable(d) && PremierPris(s, m, d, t)) && (rep.Refusee? ==> s' == s)
      && (rep.Ok? ==>
            && rep.valeur == |s.credits| && d.total.Nombre?
            && exists p: Etat :: CreditPose(s, p, m, d.client, d.total.n)
                 && if PremierVersement(s, d) == 0.0 then s' == p
                    else PaiementEcrit(p, s', m, |s.credits|, PremierVersement(s, d), CREATION + Texte(d.cle, |s.credits|), t))
  {
    if Creable(d) {
      var p := PoserCredit(s, m, d.client, d.total.n);
      assert CreditPose(s, p, m, d.client, d.total.n);
      ArrondirZero();
      assert CleCreation(d.cle, |s.credits|) == CREATION + Texte(d.cle, |s.credits|);
      EncaisserExact(p, m, |s.credits|, Verse(d), CleCreation(d.cle, |s.credits|), t);
    }
  }

  // ── Part payments and settlements ───────────────────────────────────────

  predicate JourOuvert(s: Etat, m: Marchand, t: int) { (m, Jour(t)) in s.sessions ==> s.sessions[(m, Jour(t))].ouvert }

  /** A settlement: refused to others and on a closed day, answered without effect when nothing is left, otherwise the whole rest. */
  lemma PayerExact(s: Etat, m: Marchand, id: nat, cle: Option<string>, t: int)
    ensures var (s', rep) := MarquerPaye(s, m, id, cle, t);
      var sien := id < |s.credits| && s.credits[id].marchand == m;
      && (rep == Refusee(Introuvable) <==> !sien)
      && (sien ==>
            var reste := Arrondir(s.credits[id].total - s.credits[id].acompte);
            && (rep == Ok(None) <==> reste <= 0.0) && (reste <= 0.0 ==> s' == s)
            && (rep == Refusee(JourneeFermee) <==> reste > 0.0 && !JourOuvert(s, m, t))
            && (reste > 0.0 && JourOuvert(s, m, t) && CleLibre(s, REGLEMENT + Texte(cle, id)) && reste == Arrondir(s.credits[id].total) - Arrondir(s.credits[id].acompte) ==>
                  && rep == Ok(Some(Encaissement(false, ReglementCredit, 0.0)))
                  && PaiementEcrit(s, s', m, id, reste, REGLEMENT + Texte(cle, id), t)))
      && (rep.Refusee? ==> s' == s)
  {
    if id < |s.credits| {
      var reste := Arrondir(s.credits[id].total - s.credits[id].acompte);
      ArrondiEntier(s.credits[id].total - s.credits[id].acompte);
      assert CleReglement(cle, id) == REGLEMENT + Texte(cle, id);
      EncaisserExact(s, m, id, reste, CleReglement(cle, id), t);
    }
  }

  /** A part payment is refused without a positive amount and a key, and on a closed day; otherwise it is the primitive, under its key. */
  lemma AcompteExact(s: Etat, m: Marchand, id: nat, x: Option<real>, cle: Option<string>, t: int)
    ensures var (s', rep) := AjouterAcompte(s, m, id, x, cle, t);
      && (!(x.Some? && x.value > 0.0 && cle.Some?) ==> rep == Refusee(Invalide))
      && (x.Some? && x.value > 0.0 && cle.Some? && !JourOuvert(s, m, t) ==> rep == Refusee(JourneeFermee))
      && (rep.Refusee? ==> s' == s)
      && (x.Some? && x.value > 0.0 && cle.Some? && JourOuvert(s, m, t) && id < |s.credits| && s.credits[id].marchand == m ==>
            var reste := Arrondir(s.credits[id].total) - Arrondir(s.credits[id].acompte);
            && (rep.Ok? <==> Arrondir(x.value) > 0.0 && (CleLibre(s, ACOMPTE + cle.value) ==> Arrondir(x.value) <= reste))
            && (rep.Ok? && CleLibre(s, ACOMPTE + cle.value) ==> PaiementEcrit(s, s', m, id, Arrondir(x.value), ACOMPTE + cle.value, t)))
  {
    if x.Some? && cle.Some? { EncaisserExact(s, m, id, x.value, ACOMPTE + cle.value, t); }
  }

  // ── A settlement without a key, over runs ───────────────────────────────

  function ParDefaut(id: nat): string { REGLEMENT + TexteId(id) }

  /** The request books under that text because its client sent it. */
  predicate Envoie(r: Requete, texte: string) {
    match r
    case RVente(_, d, _) => d.cle == Some(texte)
    case RDepense(_, d, _) => d.cle == Some(texte)
    case RPayer(_, _, cle, _) => cle.Some? && REGLEMENT + cle.value == texte
    case _ => false
  }

  /** A credit's default key is in the till only once the credit is paid. */
  ghost predicate Reservee(s: Etat, id: nat) {
    !CleLibre(s, ParDefaut(id)) ==> id < |s.credits| && s.credits[id].acompte == Arrondir(s.credits[id].total)
  }

  lemma LigneReservee(s: Etat, s': Etat, e: Ecriture, id: nat)
    requires Reservee(s, id) && s'.ecritures == s.ecritures + [e] && e.cle != Some(ParDefaut(id))
    requires |s.credits| <= |s'.credits| && forall i :: 0 <= i < |s.credits| ==> s'.credits[i] == s.credits[i]
    ensures Reservee(s', id)
  {
    if CleLibre(s, ParDefaut(id)) {
      assert CleLibre(s', ParDefaut(id));
    }
  }

  lemma ClesGardees(s: Etat, s': Etat, id: nat)
    requires Reservee(s, id) && |s'.ecritures| == |s.ecritures| && forall i :: 0 <= i < |s.ecritures| ==> s'.ecritures[i].cle == s.ecritures[i].cle
    requires |s.credits| <= |s'.credits| && forall i :: 0 <= i < |s.credits| ==> s'.credits[i] == s.credits[i]
    ensures Reservee(s', id)
  {
    if CleLibre(s, ParDefaut(id)) { assert CleLibre(s', ParDefaut(id)); }
  }

  /** A payment under another key, or of this credit to its end. */
  lemma EncaisserReservee(s: Etat, m: Marchand, c: nat, brut: real, cle: string, t: int, id: nat)
    requires LoiCredit(s) && Reservee(s, id)
    requires cle == ParDefaut(id) && c < |s.credits| ==> c == id && Arrondir(brut) == Arrondir(s.credits[id].total) - s.credits[id].acompte
    ensures Reservee(EncaisserCredit(s, m, c, brut, cle, t).0, id)
  {
    EncaisserEcritOuRien(s, m, c, brut, cle, t);
    if Encaisse(s, m, c, brut, cle) {
      var s' := EncaisserCredit(s, m, c, brut, cle, t).0;
      assert CreditJuste(s, c);
      if CleLibre(s, ParDefaut(id)) && cle != ParDefaut(id) {
        assert s'.ecritures == s.ecritures + [s'.ecritures[|s.ecritures|]] && s'.ecritures[|s.ecritures|].cle == Some(cle);
        assert CleLibre(s', ParDefaut(id));
      }
    }
  }

  lemma CreerReservee(s: Etat, m: Marchand, d: DemandeCredit, t: int, id: nat)
    requires LoiCredit(s) && Reservee(s, id)
    ensures Reservee(CreerCredit(s, m, d, t).0, id)
  {
    if d.total.Nombre? {
      var p := PoserCredit(s, m, d.client, d.total.n);
      PoserGardeLoiCredit(s, m, d.client, d.total.n);
      ClesGardees(s, p, id);
      ClesDerivees(None, id, d.cle, |s.credits|, "");
      EncaisserReservee(p, m, |s.credits|, Verse(d), CleCreation(d.cle, |s.credits|), t, id);
    }
  }

  lemma PayerReservee(s: Etat, m: Marchand, c: nat, cle: Option<string>, t: int, id: nat)
    requires LoiCredit(s) && Reservee(s, id) && !Envoie(RPayer(m, c, cle, t), ParDefaut(id))
    ensures Reservee(MarquerPaye(s, m, c, cle, t).0, id)
  {
    if c < |s.credits| {
      var brut := Arrondir(s.credits[c].total - s.credits[c].acompte);
      TexteInjectif(c, id);
      ResteEntier(s, c);
      assert CleReglement(cle, c) == REGLEMENT + Texte(cle, c);
      Suffixe(REGLEMENT, Texte(cle, c), TexteId(id));
      EncaisserReservee(s, m, c, brut, CleReglement(cle, c), t, id);
    }
  }

  /** What a settlement asks is the whole rest, and already rounded. */
  lemma ResteEntier(s: Etat, c: nat)
    requires LoiCredit(s) && c < |s.credits|
    ensures var reste := Arrondir(s.credits[c].total) - s.credits[c].acompte;
      && Arrondir(s.credits[c].acompte) == s.credits[c].acompte
      && Arrondir(s.credits[c].total - s.credits[c].acompte) == reste && Arrondir(reste) == reste
  {
    assert CreditJuste(s, c);
    ArrondirEntier(s.credits[c].total, s.credits[c].acompte);
    ArrondiEntier(s.credits[c].total - s.credits[c].acompte);
  }

  lemma AcompteReservee(s: Etat, m: Marchand, c: nat, x: Option<real>, cle: Option<string>, t: int, id: nat)
    requires LoiCredit(s) && Reservee(s, id)
    ensures Reservee(AjouterAcompte(s, m, c, x, cle, t).0, id)
  {
    if x.Some? && cle.Some? {
      ClesDerivees(None, id, None, 0, cle.value);
      EncaisserReservee(s, m, c, x.value, CleAcompte(cle.value), t, id);
    }
  }

  lemma SansCleReservee(s: Etat, r: Requete, id: nat)
    requires Reservee(s, id) && !r.RVente? && !r.RDepense? && !r.RCredit? && !r.RPayer? && !r.RAcompte?
    ensures Reservee(Etape(s, r), id)
  {
    AutresRoutes(s, r);
    match r
    case REcriture(m, n, x, t) => if Etape(s, r) != s { LigneReservee(s, Etape(s, r), Ecriture(m, n, x, Validee, t, None), id); }
    case RAnnuler(m, i, t) => ClesGardees(s, Etape(s, r), id);
    case RStatut(i, st, motif) => ClesGardees(s, Etape(s, r), id);
    case _ => SansEcriture(s, r); ClesGardees(s, Etape(s, r), id);
  }

  lemma EtapeReservee(s: Etat, r: Requete, id: nat)
    requires LoiCredit(s) && Reservee(s, id) && !Envoie(r, ParDefaut(id))
    ensures Reservee(Etape(s, r), id)
  {
    match r
    case RVente(m, d, t) => VenteReservee(s, m, d, t, id);
    case RDepense(m, d, t) => DepenseReservee(s, m, d, t, id);
    case RCredit(m, d, t) => CreerReservee(s, m, d, t, id);
    case RPayer(m, c, cle, t) => PayerReservee(s, m, c, cle, t, id);
    case RAcompte(m, c, x, cle, t) => AcompteReservee(s, m, c, x, cle, t, id);
    case _ => SansCleReservee(s, r, id);
  }

  lemma VenteReservee(s: Etat, m: Marchand, d: DemandeVente, t: int, id: nat)
    requires Reservee(s, id) && d.cle != Some(ParDefaut(id))
    ensures Reservee(EnregistrerVente(s, m, d, t).0, id)
  {
    var s' := EnregistrerVente(s, m, d, t).0;
    VenteLois.VenteExacte(s, m, d, t);
    if VenteLois.Recevable(s, m, d.cle, d.montant, t) {
      var e := s'.ecritures[|s.ecritures|];
      assert s'.ecritures == s.ecritures + [e];
      LigneReservee(s, s', e, id);
    }
  }

  lemma DepenseReservee(s: Etat, m: Marchand, d: DemandeDepense, t: int, id: nat)
    requires Reservee(s, id) && d.cle != Some(ParDefaut(id))
    ensures Reservee(EnregistrerDepense(s, m, d, t).0, id)
  {
    var s' := EnregistrerDepense(s, m, d, t).0;
    VenteLois.DepenseExacte(s, m, d, t);
    if VenteLois.Recevable(s, m, d.cle, d.montant, t) {
      var e := s'.ecritures[|s.ecritures|];
      assert s'.ecritures == s.ecritures + [e];
      LigneReservee(s, s', e, id);
    }
  }

  lemma {:induction false} RunReservee(s: Etat, rs: seq<Requete>, id: nat)
    requires LoiCredit(s) && Reservee(s, id) && forall k :: 0 <= k < |rs| ==> !Envoie(rs[k], ParDefaut(id))
    ensures LoiCredit(Executer(s, rs)) && Reservee(Executer(s, rs), id)
  {
    RunCredit(s, rs);
    if rs != [] {
      var a := rs[..|rs| - 1];
      RunReservee(s, a, id);
      EtapeReservee(Executer(s, a), rs[|rs| - 1], id);
    }
  }

  lemma SolderSansCle(s: Etat, m: Marchand, id: nat, t: int)
    requires LoiCredit(s) && Reservee(s, id) && id < |s.credits| && s.credits[id].marchand == m && JourOuvert(s, m, t)
    requires s.credits[id].acompte < Arrondir(s.credits[id].total)
    ensures ReglementComplet(s, m, id, t)
  {
    ResteEntier(s, id);
    PayerExact(s, m, id, None, t);
  }

  /** What such a settlement does: it is recorded, pays all that is left and brings `acompte` to the rounded total. */
  ghost predicate ReglementComplet(s: Etat, m: Marchand, id: nat, t: int)
    requires id < |s.credits|
  {
    var (s', rep) := MarquerPaye(s, m, id, None, t);
    && rep == Ok(Some(Encaissement(false, ReglementCredit, 0.0)))
    && PaiementEcrit(s, s', m, id, Arrondir(s.credits[id].total) - s.credits[id].acompte, ParDefaut(id), t)
    && id < |s'.credits| && s'.credits[id].acompte == Arrondir(s.credits[id].total) && s'.credits[id].paye
  }

  /**
   After any run in which no client sent the text of the credit's default key, a settlement without a key, on an open
   day, of a credit with something left, is complete: never taken for the replay of another one.
   */
  lemma ReglementSansCle(s: Etat, rs: seq<Requete>, m: Marchand, id: nat, t: int)
    requires LoiCredit(s) && Reservee(s, id) && forall k :: 0 <= k < |rs| ==> !Envoie(rs[k], ParDefaut(id))
    ensures var f := Executer(s, rs);
      id < |f.credits| && f.credits[id].marchand == m && JourOuvert(f, m, t) && f.credits[id].acompte < Arrondir(f.credits[id].total) ==>
        ReglementComplet(f, m, id, t)
  {
    RunReservee(s, rs, id);
    var f := Executer(s, rs);
    if id < |f.credits| && f.credits[id].marchand == m && JourOuvert(f, m, t) && f.credits[id].acompte < Arrondir(f.credits[id].total) {
      SolderSansCle(f, m, id, t);
    }
  }

  // ── The audit rows tell the whole payment of a credit ───────────────────

  /** A row says what was left before it and after it: what the earlier rows of its credit left. */
  ghost predicate Suivi(s: Etat, k: nat)
    requires k < |s.audits| && s.audits[k].credit < |s.credits|
  {
    var a := s.audits[k];
    a.resteAvant == Arrondir(s.credits[a.credit].total) - Somme(PourCredit(a.credit), s.audits[..k]) && a.resteApres == a.resteAvant - a.montant >= 0.0
  }

  ghost predicate LoiSuivi(s: Etat) { forall k :: 0 <= k < |s.audits| ==> s.audits[k].credit < |s.credits| && Suivi(s, k) }

  lemma EncaisserSuivi(s: Etat, m: Marchand, id: nat, brut: real, cle: string, t: int)
    requires LoiCredit(s) && LoiSuivi(s)
    ensures LoiSuivi(EncaisserCredit(s, m, id, brut, cle, t).0)
  {
    EncaisserEcritOuRien(s, m, id, brut, cle, t);
    if Encaisse(s, m, id, brut, cle) {
      var s', n := EncaisserCredit(s, m, id, brut, cle, t).0, |s.audits|;
      assert CreditJuste(s, id);
      forall k | 0 <= k < |s'.audits| ensures s'.audits[k].credit < |s'.credits| && Suivi(s', k) {
        assert s'.audits[..k] == s.audits[..k];
        if k < n { assert Suivi(s, k); } else { assert s.audits[..n] == s.audits; }
      }
    }
  }

  lemma GardeSuivi(s: Etat, s': Etat)
    requires LoiSuivi(s) && s'.audits == s.audits && |s.credits| <= |s'.credits|
    requires forall i :: 0 <= i < |s.credits| ==> s'.credits[i].total == s.credits[i].total
    ensures LoiSuivi(s')
  {
    forall k | 0 <= k < |s'.audits| ensures s'.audits[k].credit < |s'.credits| && Suivi(s', k) { assert Suivi(s, k); }
  }

  lemma CreerSuivi(s: Etat, m: Marchand, d: DemandeCredit, t: int)
    requires LoiCredit(s) && LoiSuivi(s)
    ensures LoiSuivi(CreerCredit(s, m, d, t).0)
  {
    if d.total.Nombre? {
      var p := PoserCredit(s, m, d.client, d.total.n);
      PoserGardeLoiCredit(s, m, d.client, d.total.n);
      GardeSuivi(s, p);
      EncaisserSuivi(p, m, |s.credits|, Verse(d), CleCreation(d.cle, |s.credits|), t);
    }
  }

  lemma PayerOuRien(s: Etat, m: Marchand, id: nat, cle: Option<string>, t: int)
    ensures var s' := MarquerPaye(s, m, id, cle, t).0;
      s' == s || (id < |s.credits|
                  && s' == EncaisserCredit(s, m, id, Arrondir(s.credits[id].total - s.credits[id].acompte), CleReglement(cle, id), t).0)
  {
  }

  lemma PayerSuivi(s: Etat, m: Marchand, id: nat, cle: Option<string>, t: int)
    requires LoiCredit(s) && LoiSuivi(s)
    ensures LoiSuivi(MarquerPaye(s, m, id, cle, t).0)
  {
    PayerOuRien(s, m, id, cle, t);
    if id < |s.credits| { EncaisserSuivi(s, m, id, Arrondir(s.credits[id].total - s.credits[id].acompte), CleReglement(cle, id), t); }
  }

  lemma EtapeSuivi(s: Etat, r: Requete)
    requires LoiCredit(s) && LoiSuivi(s)
    ensures LoiSuivi(Etape(s, r))
  {
    match r
    case RCredit(m, d, t) => CreerSuivi(s, m, d, t);
    case RPayer(m, id, cle, t) => PayerSuivi(s, m, id, cle, t);
    case RAcompte(m, id, x, cle, t) => if x.Some? && cle.Some? { EncaisserSuivi(s, m, id, x.value, CleAcompte(cle.value), t); }
    case _ => AutresRoutes(s, r); GardeSuivi(s, Etape(s, r));
  }

  /** Over every run the audit rows of a credit are a chain: each starts from what the earlier ones left of the rounded total. */
  lemma {:induction false} RunSuivi(s: Etat, rs: seq<Requete>)
    requires LoiCredit(s) && LoiSuivi(s)
    ensures LoiSuivi(Executer(s, rs))
  {
    if rs != [] {
      RunSuivi(s, rs[..|rs| - 1]);
      RunCredit(s, rs[..|rs| - 1]);
      EtapeSuivi(Executer(s, rs[..|rs| - 1]), rs[|rs| - 1]);
    }
  }
}
