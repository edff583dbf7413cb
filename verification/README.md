# Jùlaba: the money and stock core, modelled and proved

Jùlaba's backend keeps, for market women in Côte d'Ivoire, a till, a stock, credits to
clients, an order market, wallets and a product catalogue. This project models the rules
that move money and goods as state machines over small tables and proves what every run
keeps. Each table is a field; each HTTP route is one step; what the code does by `UPDATE`
and `INSERT` is done step by step by methods on those fields, and every such method is
proved to leave exactly the tables, and to give exactly the reply, of a function of the
tables. The laws are lemmas about those functions, over whole runs of requests.

`dafny verify dfyconfig.toml` checks the project. Names keep the French of the source,
without accents.

## The parts

- **The till** — `Tables`, `Stock`, `Caisse` (the routes as functions, `Requete`, `Etape`,
  `Executer`), `BaseDonnees` and `Routes` (the routes as methods). What each route accepts,
  refuses and leaves, said from the request and the tables: `VenteLois`, `AnnulationLois`,
  `JourneeLois`, `ReglementLois`, `ProduitLois`. Its laws over runs: `StockLois` and
  `StockRuns` (stock and ledger), `ConstatLois` (closed days), `CaisseLois` (the cash of a
  day), `CreditLois` (credits and debts), `AccordLois` (till and credits), `RejeuLois`
  (offline replays), `FondLois` (the float journal).
- **Reservations of orders** — `Reservation`, `ReservationLois`, `ReservationService`
  (the methods), `Commandes` (the call sites), `OperationLois` (each operation and order),
  `FinLois` (running out), `Entrelacements` (the same operations as concurrent transactions,
  one SQL statement at a time, with row locks and aborts).
- **Secret codes** — `Verrou`: the lock ladder, its two counters, the routes that use none;
  `VerrouLois`: each try, and the counter told by the tries.
- **Refresh tokens** — `Jetons`: rotation, session cap, revocation; `SessionLois`: every row,
  every refusal, expiry.
- **Journals** — `Portefeuilles` and `PortefeuilleLois` (wallets), `Boutique` (the shop
  journal), `Miroir` (the mirrored master catalogue and adoption).
- `Garanties` gathers what holds from empty tables, with no invariant left to assume.
  `Sommes` and `Commun` are shared.

## Where the code does not keep what its comments promise

These are stated as exact conditions, with a run that shows the failure.

- **A closed day is a dated statement.** The guard looks at today's session. Five requests
  pass it and change a closed day's account: a sale or an expense backdated by
  `date_operation`, an expense through `POST transactions`, a changed float on a closed
  day, an administrator moving a counted line across `annulee`. `Perturbe` is this list,
  and `ConstatLois.RunConstat` proves that it is complete and that each one does break a
  statement.
- **`montant_du` is the sum of the debts.** It is when no total rounds up or is negative
  (`TotalHonnete`; whole francs are honest). For every other total
  `CreditLois.TotalMalhonneteCasse` gives a run that leaves the debt wrong: a credit of
  0.5 F is settled with 1 F.
- **About 72 tries a day.** The comment of `verrou-pin.ts` counts only the plateau, and only
  the tries that go through a counter. Four routes compare the same PIN or password without
  one, also during a wait: `pin/set`, `pin/disable`, `change-password` and the deletion of
  the account. For tries on an account made one after the other and no reset, the wrong
  codes compared with an account's PIN and password in 24 hours are at most 78 plus those of
  these four routes — 72 plus, once six failures are behind — and the first bound is reached
  for every number of them (`Verrou.BornesDuCompte`, `Verrou.BorneExacte`). So 78 and 72 hold
  of every run that uses none of the four (`Verrou.BorneSiTousComptes`); with one of them any
  number of wrong codes is compared in one instant (`Verrou.SansCompteurSansBorne`). The
  identificateur's PIN has no such route.
- **The till and the credits say the same.** A credit keeps what was paid on it; the till
  drops a line that an administrator cancels. They agree if and only if none of the
  merchant's credit payment lines stands cancelled (`AccordLois.AccordSsiRienAnnule`);
  such a cancellation is the only request that parts them (`AccordLois.RunAccord`), and
  `AccordLois.PaiementAnnule` is a run that leaves a credit paid of which the till counts
  nothing.
- **A release gives the stock back.** It gives the quantity back, but a publication that was
  marked `epuise` meanwhile stays so. An exhausted publication is empty after every step of a
  run if and only if no order that still held some of one is cancelled (`FinLois.RunEpuisee`). No order puts it on offer again,
  and the market lists only `disponible` ones; `FinLois.RenduMaisEpuise` is such a run.
- **A payment moves money.** An order whose buyer is its seller credits the wallet with its
  total instead: both rows are read before either is saved.
  `Portefeuilles.RunSolde` and `Portefeuilles.PaiementConserve` are if-and-only-if.
  `Portefeuilles.CommanderASoiMeme` is such a run.
- **A key counts once.** For a sale the outcome is decided by who holds its key
  (`RejeuLois.VenteEtCle`); another merchant's is refused by the unique index after the
  route has opened the day. In the credit primitive the key alone
  decides, whatever line holds it: a payment valid on its own credit is answered with
  success and recorded nowhere if and only if its key is already in the till
  (`RejeuLois.PaiementAvale`; `RejeuLois.VenteAvaleUnReglement` is such a run). The replay
  laws count such a payment among the replays, as the code does.
- **A cancellation gives back what the sale took.** `DELETE stocks/:id` removes a product's
  row, and the restitution skips a product that is gone. A cancelled sale ends up holding
  nothing of a product if and only if the row was there when it was cancelled, or nothing
  was held (`StockRuns.AnnulationDefinitive`, `Garanties.AnnulationsExactes`);
  `StockRuns.ProduitEffaceJamaisRendu` is a run that loses three for ever.
- **A reference is adopted once.** The same deletion reopens it: a merchant can adopt a
  reference again if and only if the product of her last adoption was deleted
  (`Miroir.ReadoptionSsiEfface`).

## Model

| member | source | states |
|---|---|---|
| `Garanties.LivresEnRegle` | backend/src/caisse-rest/caisse-rest.controller.ts:637-889 | after any requests from empty tables: each stock is its ledger, a cancelled sale still holds some of a product only if the product's row was deleted, credits agree with their payments, with their count and with all the till's lines on them, and with the lines the till counts if and only if none of the merchant's stands cancelled, the float journal replays the floats, no key is recorded twice |
| `Garanties.AnnulationsExactes` | backend/src/caisse-rest/stock-restitution.ts:39-63 | from empty tables, a sale cancelled anywhere in a run holds nothing of a product in the end if and only if the product's row was there at that moment or the sale held nothing of it then |
| `Garanties.CaisseEtCredits` | backend/src/caisse-rest/caisse-rest.controller.ts:456-492 | from empty tables, what the till counts of a merchant's credit payments is what her credits say was paid, after every step, if and only if no step is an administrator's cancellation of one of these lines |
| `Garanties.ConstatsVrais` | backend/src/caisse-rest/journee-ouverte.ts:37-52 | from empty tables, every closed day's three numbers are true after every step exactly when no step is one the closed-day guard misses |
| `Garanties.ConstatsGraves` | backend/src/caisse-rest/caisse-rest.controller.ts:502-560 | from empty tables, the numbers of a closed day are those of one closing of the run, after which nothing opened the day again; and they stay over every continuation that does not open it |
| `Garanties.ReglementsSansCle` | backend/src/caisse-rest/credits.controller.ts:135-177 | from empty tables, after any run in which no client sends the text of a credit's default key, settling that credit without a key on an open day is recorded and pays all that was left |
| `Garanties.DettesExactes` | backend/src/caisse-rest/credits.controller.ts:53-113 | from empty tables with honest totals, `montant_du` is the sum of what the client's credits leave to pay |
| `Garanties.StocksJamaisNegatifs` | backend/src/caisse-rest/caisse-rest.controller.ts:789-802 | from empty tables, unless a negative stock is typed in, no stock is ever negative |
| `Garanties.ReservationsConcurrentes` | backend/src/commandes/stock-reservation.service.ts:38-227 | any transactions interleaved statement by statement, with any aborts: available + reserved + sold is what it was plus the shortages of the operations that committed; each process commits at most once |
| `Garanties.SessionsPlafonnees` | backend/src/auth/auth.service.ts:483-496 | from an empty table, over every run nobody has more than five active tokens |
| `Garanties.JetonsExpires` | backend/src/auth/auth.service.ts:379-420 | from an empty table, over every run, a token presented after its expiry never opens a session |
| `Garanties.AdoptionsEnRegle` | backend/src/catalogue-maitre/catalogue-maitre.service.ts:213-286 | from empty tables, over every run each adopted product keeps an existing master code, one per merchant and code |
| `CaisseLois.EtapeFlux` | backend/src/caisse-rest/caisse-rest.controller.ts:456-492 | each request moves each day's account by exactly its flux: the amount it books, on the day it books in, and nothing anywhere else |
| `CaisseLois.RunFlux` | backend/src/caisse-rest/caisse-rest.controller.ts:456-492 | over every run, what a drawer should hold is its float plus all the run moved in that day's account |
| `CaisseLois.EcartDuSoir` | backend/src/caisse-rest/caisse-rest.controller.ts:502-560 | closing after any run answers with what was counted minus the float minus every flow of that day, and stores it |
| `CaisseLois.CompteScelle` | backend/src/caisse-rest/date-operation.ts:26-40 | once a day is more than fourteen days over, its account is final over every run, but for an administrator who cancels or reinstates one of its lines |
| `Tables.JoursPossibles` | backend/src/caisse-rest/date-operation.ts:26-40 | the days a phone can book in are exactly those from fourteen days before to ten minutes after: each by some claim, no other by any |
| `Tables.JourExact` | backend/src/caisse-rest/caisse-rest.controller.ts:456-467 | a day is the 86 400 000 milliseconds from its UTC midnight |
| `ConstatLois.EtapeConstat` | backend/src/caisse-rest/caisse-rest.controller.ts:217-560 | from true statements, a request leaves every closed day's statement true if and only if it is not one of the five listed in `Perturbe` |
| `ConstatLois.RunConstat` | backend/src/caisse-rest/caisse-rest.controller.ts:456-560 | the same if-and-only-if over whole runs, after every step |
| `ConstatLois.RunSaine` | backend/src/caisse-rest/caisse-rest.controller.ts:538-548 | over every run a day is closed exactly when its closing time is set, and every line moves a positive amount |
| `ConstatLois.UneEcriture` | backend/src/caisse-rest/caisse-rest.controller.ts:456-467 | a valid line written keeps the statements exactly when its own day is not a closed one that counts its nature |
| `ConstatLois.UnStatut` | backend/src/transactions-rest/transactions-rest.controller.ts:71-125 | a status change keeps them exactly when it does not carry a counted line of a closed day across `annulee` |
| `ConstatLois.FondConstat` | backend/src/caisse-rest/caisse-rest.controller.ts:405-446 | correcting the float keeps them exactly when the day is open or the float is unchanged |
| `ConstatLois.VenteAntidateeCasseLeConstat` | backend/src/caisse-rest/caisse-rest.controller.ts:728-748 | a concrete run: open, close at the counted float, record next morning a sale claimed for that day; the statement is no longer true |
| `Stock.MouvementDeLigne` | backend/src/commun/reconciliation-stock.ts:85-130 | one sold line: taken + missing = asked, nothing missing while stock remains, a negative stock is not made worse, an unknown product moves no stock |
| `StockLois.PanierExact` | backend/src/caisse-rest/caisse-rest.controller.ts:752-807 | what a basket takes of a product is the whole demand or all there is, with the product on any number of lines, by id or by name, in any order |
| `StockLois.PanierTrace` | backend/src/caisse-rest/caisse-rest.controller.ts:752-807 | a basket leaves one ledger row per useful line, in their order: asked = taken + missing, for the product the line designates; one found by no id takes nothing and is marked not reconciled, one by no name as outside the catalogue |
| `VenteLois.VenteExacte` | backend/src/caisse-rest/caisse-rest.controller.ts:637-807 | a sale is recorded if and only if its key is free, its amount positive and the day not closed; each product then gives all the lines of the request's own basket ask of it or all it has, products none designates keep their row, each line that counts leaves its row, in order, with the stock the lines before it left; with no basket the same for the one article named, a quantity of 0 read as 1; one more line in the till, at the claimed instant when it is within bounds |
| `VenteLois.DepenseExacte` | backend/src/caisse-rest/caisse-rest.controller.ts:829-889 | an expense is recorded under exactly the same condition, as one line, and moves no stock |
| `VenteLois.ReponsesDeVente` | backend/src/caisse-rest/caisse-rest.controller.ts:637-698 | which answer a sale or an expense gets: a replay first, then the amount, then the day; an unreadable expense fails in the database after the day was opened |
| `VenteLois.EcritureExacte` | backend/src/caisse-rest/caisse-rest.controller.ts:245-287 | a line without a key is written exactly for a positive amount and one of three natures, at the instant of the request |
| `VenteLois.ViseEstCherche` | backend/src/caisse-rest/caisse-rest.controller.ts:752-783 | a line with an id designates that product of the merchant's if it is on sale, without one the first of that name, the case of letters aside |
| `StockRuns.RunStock` | backend/src/caisse-rest/caisse-rest.controller.ts:752-807 | over every run, whichever route typed a stock in, each present product's stock (NULL read as 0) is its last typed stock minus what its later ledger rows took |
| `StockRuns.RunStocksPositifs` | backend/src/commun/reconciliation-stock.ts:117-128 | from non-negative stocks no run without a negative stock typed in takes one below zero |
| `StockLois.RestitutionExacte` | backend/src/caisse-rest/stock-restitution.ts:21-65 | a restitution gives each product that is still there what that sale took and had not been given back, and no other product or sale anything; the sale then holds nothing of a product if and only if its row was there or it held nothing already |
| `StockLois.RestitutionIdempotente` | backend/src/caisse-rest/stock-restitution.ts:24-46 | a second restitution of the same sale changes nothing at all |
| `StockLois.AnnulationImmediate` | backend/src/caisse-rest/stock-restitution.ts:21-65 | a sale cancelled at once leaves every stock as it found it, whatever its basket |
| `StockRuns.RunRestitution` | backend/src/caisse-rest/stock-restitution.ts:21-65 | over every run, whatever interleaves: what a sale took never changes; once given back its account stays at zero; once the product is deleted it does not move |
| `StockRuns.AnnulationRend` | backend/src/caisse-rest/caisse-rest.controller.ts:217-243 | a cancellation by the merchant or an administrator, anywhere in a run, gives each product whose row is there exactly what the sale still held of it; zero is reached if and only if the row was there or nothing was held |
| `StockRuns.AnnulationDefinitive` | backend/src/caisse-rest/stock-restitution.ts:39-63 | the same if-and-only-if for ever after, however the run goes on, the sale reinstated and cancelled again included |
| `AnnulationLois.AnnulerExact` | backend/src/caisse-rest/caisse-rest.controller.ts:217-243 | a merchant cancels exactly her own validated sales of the day while the day is not closed, each refusal with its own condition; the sale is marked and its stock given back, row by row, and nothing else moves |
| `AnnulationLois.ChangerExact` | backend/src/transactions-rest/transactions-rest.controller.ts:71-125 | an administrator gives a line any status, with a reason for the three that need one; stock is given back exactly when the line becomes cancelled |
| `AnnulationLois.RetourExact` | backend/src/caisse-rest/stock-restitution.ts:21-65 | a restitution leaves one inverse row, in product order, for each product that is there and of which the sale's rows hold some, with the columns of those rows, and adds that much to its stock; every other row is as it was |
| `AnnulationLois.ReponseExacte` | backend/src/caisse-rest/stock-restitution.ts:61-65 | the list it answers with is, row for row, what it wrote: product, name and quantity |
| `StockRuns.EffacerPuisAnnuler` | backend/src/caisse-rest/stock-restitution.ts:43-47 | whatever the sale: cancelled after its product was deleted, it keeps for ever what it holds of it |
| `StockRuns.ProduitEffaceJamaisRendu` | backend/src/stocks-rest/stocks-rest.controller.ts:262-270 | a concrete run: ten in stock, three sold, the product deleted, the sale cancelled the same day; three stay taken for ever |
| `StockRuns.EffaceSsiDemande` | backend/src/stocks-rest/stocks-rest.controller.ts:262-270 | over every run a product's row is gone exactly when its owner asked for its deletion |
| `CreditLois.RunCredit` | backend/src/caisse-rest/encaisser-credit.ts:97-205 | over every run, for any totals: a credit's payments sum to `acompte`, within the rounded total, `paye` exactly at it; till lines and audit rows of credits are the same payments in the same order |
| `CreditLois.UnSeulReglement` | backend/src/caisse-rest/encaisser-credit.ts:148-189 | a paid credit has exactly one settlement, its last payment; an unpaid one has none |
| `CreditLois.ReponseHonnete` | backend/src/caisse-rest/encaisser-credit.ts:119-152 | the reply is what the tables then say: what is left to pay, a settlement exactly when nothing is, a replay exactly when nothing was written |
| `ReglementLois.EncaisserExact` | backend/src/caisse-rest/encaisser-credit.ts:97-205 | each refusal of the primitive has its condition; a replay answers without writing; a payment that fits writes its credit, the client's debt, the till line and the audit row, and nothing else |
| `ReglementLois.CreerExact` | backend/src/caisse-rest/credits.controller.ts:31-120 | a credit is created if and only if its body is complete and its first payment, if any, is taken; refused, neither the client nor the credit stays; the first payment is in the till exactly when its key was not |
| `ReglementLois.PayerExact` | backend/src/caisse-rest/credits.controller.ts:135-177 | a settlement is refused to others and on a closed day, answered without effect when nothing is left, and otherwise, under a free key, takes the whole rest |
| `ReglementLois.AcompteExact` | backend/src/caisse-rest/credits.controller.ts:192-239 | a part payment needs a positive amount, a key and an open day, and is recorded within what is left |
| `ReglementLois.ClesDerivees` | backend/src/caisse-rest/credits.controller.ts:94-167 | two settlements, or two first payments, have the same key exactly when they send the same text; without one, exactly for the same credit; no kind of payment ever has another's key |
| `ReglementLois.ReglementSansCle` | backend/src/caisse-rest/credits.controller.ts:160-167 | over every run in which no client sends that text, the default key of a credit is in the till only once the credit is paid, so that settling without a key is never taken for a replay |
| `ReglementLois.RunSuivi` | backend/src/caisse-rest/encaisser-credit.ts:193-205 | over every run the audit rows of a credit are a chain: each says what the earlier ones left of the rounded total, and what it leaves |
| `ReglementLois.ArrondirExact` | backend/src/caisse-rest/encaisser-credit.ts:97-101 | rounding gives the nearest whole number, the upper one of two |
| `CreditLois.CaisseEtCreditsDAccord` | backend/src/caisse-rest/encaisser-credit.ts:155-190 | all the credit payment lines of a merchant, cancelled ones included, add up to the payments recorded on her credits |
| `AccordLois.EcartDesAnnules` | backend/src/caisse-rest/caisse-rest.controller.ts:456-492 | what her credits say was paid exceeds the lines the till counts by exactly the lines that stand cancelled |
| `AccordLois.AccordSsiRienAnnule` | backend/src/caisse-rest/caisse-rest.controller.ts:456-492 | the two are equal if and only if none of her credit payment lines stands cancelled |
| `AccordLois.ComptesDesJours` | backend/src/caisse-rest/caisse-rest.controller.ts:456-467 | over days that cover her lines, the daily accounts together count each credit payment line that is not cancelled exactly once |
| `AccordLois.EtapeAccord` | backend/src/transactions-rest/transactions-rest.controller.ts:71-125 | from agreement, a request keeps it if and only if it is not an administrator's cancellation of one of her credit payment lines |
| `AccordLois.RunAccord` | backend/src/transactions-rest/transactions-rest.controller.ts:71-125 | the same if-and-only-if over whole runs, after every step |
| `AccordLois.PaiementAnnule` | backend/src/transactions-rest/transactions-rest.controller.ts:71-125 | a run, for every whole amount: lent, settled, its line cancelled; the credit stays paid, the client owes nothing, the till counts nothing of it |
| `CreditLois.RunDette` | backend/src/caisse-rest/credits.controller.ts:53-113 | over every run of honest totals `montant_du` is the sum of what the client's credits leave to pay |
| `CreditLois.PaiementEtDette` | backend/src/caisse-rest/encaisser-credit.ts:167-174 | a payment keeps the debts exact if and only if `GREATEST(0, …)` does not clamp |
| `CreditLois.JamaisEcrete` | backend/src/caisse-rest/encaisser-credit.ts:167-174 | with honest totals it never clamps |
| `CreditLois.TotalMalhonneteCasse` | backend/src/caisse-rest/credits.controller.ts:41-47 | for every total that is not honest there is a run, otherwise honest, that leaves the client's debt wrong |
| `CreditLois.RunNombre` | backend/src/caisse-rest/credits.controller.ts:60-70 | over every run `nb_credits` counts the client's credits |
| `RejeuLois.UneSeuleFois` | backend/src/caisse-rest/caisse-rest.controller.ts:639-642 | once a keyed request succeeded, sending it again anywhere later in a run, with any contents, leaves the run as if it had not been sent |
| `RejeuLois.RejeuxSuperflus` | backend/src/caisse-rest/caisse-rest.controller.ts:564-572 | any run reaches the same tables as the run without its replays, which replays nothing |
| `RejeuLois.RunClesUniques` | backend/src/database/db-init.service.ts:302-306 | over every run no two till lines share a key, and no line changes key or owner |
| `RejeuLois.ReussiteEnregistree` | backend/src/caisse-rest/encaisser-credit.ts:119-136 | a keyed request that succeeds is recorded under its key |
| `RejeuLois.VenteEtCle` | backend/src/caisse-rest/caisse-rest.controller.ts:639-698 | a valid sale is recorded, answered as already recorded or refused exactly by who holds its key: nobody, one of the merchant's own lines of any kind, another merchant; a refusal leaves at most the day the route opened, and does if and only if it had no row |
| `RejeuLois.PaiementAvale` | backend/src/caisse-rest/encaisser-credit.ts:119-136 | a payment valid on its own credit always succeeds, and records nothing if and only if its key is in the till already, whatever line holds it |
| `RejeuLois.VenteAvaleUnReglement` | backend/src/caisse-rest/credits.controller.ts:160-167 | a concrete run: a sale of any merchant under the text of a settlement key; settling that credit then answers with success and records nothing |
| `FondLois.RunFond` | backend/src/caisse-rest/caisse-rest.controller.ts:311-446 | over every run a day's journal is one declaration then corrections, each from the float the previous left; the last is the current float; an undeclared day has float 0 and no entry |
| `JourneeLois.OuvrirExact` | backend/src/caisse-rest/caisse-rest.controller.ts:354-400 | opening succeeds exactly for a valid float; the day is then open, closed before or not; a float already declared stays, and so do the last closing's numbers; no other day moves |
| `JourneeLois.CorrigerExact` | backend/src/caisse-rest/caisse-rest.controller.ts:405-446 | correcting succeeds exactly for a valid float, writes it with one journal row, and opens or closes nothing that was there |
| `JourneeLois.FermerExact` | backend/src/caisse-rest/caisse-rest.controller.ts:502-560 | a closing succeeds if and only if the count is valid, the day exists and it is not closed; it writes the count, what the float and the lines of the day are worth, and the difference; refused, it changes nothing |
| `JourneeLois.EtapeClos` | backend/src/caisse-rest/caisse-rest.controller.ts:354-560 | a request leaves a closed day's numbers as they are if and only if it is not an opening of that day |
| `JourneeLois.ConstatGrave` | backend/src/caisse-rest/caisse-rest.controller.ts:517-540 | over every run without an opening of the day, what its closing wrote stays: count, expected amount, difference and instant |
| `JourneeLois.ConstatVientDe` | backend/src/caisse-rest/caisse-rest.controller.ts:502-560 | a closed day's numbers are those of one closing of the run, computed from the tables of that moment, and nothing after it opened the day again |
| `Routes.PostVente` | backend/src/caisse-rest/caisse-rest.controller.ts:637-827 | the sale, guard by guard and line by line, leaves the tables and gives the reply the laws are about |
| `Routes.PostDepense` | backend/src/caisse-rest/caisse-rest.controller.ts:829-889 | the same for an expense |
| `Routes.PatchAnnuler` | backend/src/caisse-rest/caisse-rest.controller.ts:217-243 | the same for a cancellation by the merchant, with the list of what it gave back |
| `Routes.PostOuvrir` | backend/src/caisse-rest/caisse-rest.controller.ts:354-400 | the same for opening or reopening a day |
| `Routes.PatchFond` | backend/src/caisse-rest/caisse-rest.controller.ts:405-446 | the same for correcting the float |
| `Routes.PostFermer` | backend/src/caisse-rest/caisse-rest.controller.ts:502-560 | the same for closing a day |
| `Routes.PostTransaction` | backend/src/caisse-rest/caisse-rest.controller.ts:245-287 | the same for a line written without key or guard |
| `Routes.PostProduit` | backend/src/caisse-rest/caisse-rest.controller.ts:908-917 | the same for a new product |
| `Routes.PutProduit` | backend/src/caisse-rest/caisse-rest.controller.ts:948-973 | the same for a product's columns |
| `Routes.DeleteProduit` | backend/src/caisse-rest/caisse-rest.controller.ts:975-982 | the same for a product withdrawn |
| `Routes.PostStock` | backend/src/stocks-rest/stocks-rest.controller.ts:147-166 | the same for a product created by the stock screen |
| `Routes.PatchStock` | backend/src/stocks-rest/stocks-rest.controller.ts:168-222 | the same for its update, once per key |
| `Routes.DeleteStock` | backend/src/stocks-rest/stocks-rest.controller.ts:262-270 | the same for a product deleted |
| `ProduitLois.ProduitEcrit` | backend/src/caisse-rest/caisse-rest.controller.ts:948-982 | a product request writes in each row exactly the columns it names for it, for its owner, once per key, and moves nothing else |
| `ProduitLois.RunColonnes` | backend/src/caisse-rest/caisse-rest.controller.ts:948-982 | over every run a product's name and unit are the last its owner wrote, it is on sale exactly when she did not withdraw it and there exactly when she did not delete it; no sale or cancellation touches them |
| `ProduitLois.CreerProduitExact` | backend/src/caisse-rest/caisse-rest.controller.ts:908-917 | a product is created exactly for a name of two characters or more and a unit, blanks at the ends aside |
| `ProduitLois.PoserStockExact` | backend/src/stocks-rest/stocks-rest.controller.ts:147-166 | the stock screen creates exactly with a name, with its default unit |
| `ProduitLois.ReponsesExactes` | backend/src/caisse-rest/caisse-rest.controller.ts:948-973 | an update is refused exactly when it names nothing or another's product; a keyed one tells whether its key was known |
| `ProduitLois.RognerExact` | backend/src/caisse-rest/caisse-rest.controller.ts:908-917 | trimming takes away the blanks at both ends and nothing else |
| `Routes.PatchStatut` | backend/src/transactions-rest/transactions-rest.controller.ts:71-125 | the same for an administrator's status change, with the list of what it gave back |
| `Routes.RestituerLeStock` | backend/src/caisse-rest/stock-restitution.ts:21-65 | the same for the restitution loop, which skips a deleted product, with its reply |
| `Routes.Encaisser` | backend/src/caisse-rest/encaisser-credit.ts:97-205 | the same for the credit primitive and its four writes |
| `Routes.PostCredit` | backend/src/caisse-rest/credits.controller.ts:31-120 | the same for a new credit with its first payment, rolled back together |
| `Routes.PatchPayer` | backend/src/caisse-rest/credits.controller.ts:135-177 | the same for settling a credit |
| `Routes.PatchAcompte` | backend/src/caisse-rest/credits.controller.ts:192-239 | the same for a part payment |
| `ReservationLois.ConservationTout` | backend/src/commandes/stock-reservation.service.ts:38-227 | over every sequence of operations on any orders: available + reserved + sold is the initial amount plus the shortages clamped away; nothing available is negative |
| `ReservationLois.PasDeSurvente` | backend/src/commandes/stock-reservation.service.ts:96-128 | if every conversion found its order's row, nothing is clamped and reserved + sold never exceeds what there was |
| `ReservationLois.StatutApres` | backend/src/commandes/stock-reservation.service.ts:96-128 | an order's row only moves none→active→{convertie, liberee} or none→convertie, and no operation moves another order's |
| `ReservationLois.Absorbant` | backend/src/commandes/stock-reservation.service.ts:96-110 | over every run, converted and released are final |
| `ReservationLois.Idempotent` | backend/src/commandes/stock-reservation.service.ts:44-48 | every operation applied twice is applied once |
| `ReservationLois.ReserverPuisLiberer` | backend/src/commandes/stock-reservation.service.ts:205-227 | releasing what was just reserved gives every publication and harvest back what it had |
| `ReservationLois.VenduSuitLignes` | backend/src/commandes/stock-reservation.service.ts:130-140 | `stock_vendu` grows by exactly the quantities of the rows converted out of the harvest |
| `ReservationLois.RecolteConservee` | backend/src/commandes/stock-reservation.service.ts:130-140 | a harvest sells exactly what each operation takes out of it, down to nothing available; available + sold is conserved up to the part it did not have |
| `OperationLois.ReserverExact` | backend/src/commandes/stock-reservation.service.ts:38-73 | a reservation is refused exactly without the publication or enough of it, and is otherwise one active row and that much less available |
| `OperationLois.ConvertirExact` | backend/src/commandes/stock-reservation.service.ts:84-148 | a conversion takes from the publication only without a row, sells the harvest in both cases, marks an emptied publication, and is for nothing on a row already handled |
| `OperationLois.VenteDirecteExacte` | backend/src/commandes/stock-reservation.service.ts:158-198 | a direct sale is refused exactly without the harvest, and is for nothing on an order that has a row |
| `OperationLois.LibererExact` | backend/src/commandes/stock-reservation.service.ts:205-227 | a release gives an active row's quantity back to its publication, and is for nothing otherwise |
| `OperationLois.CreerExact` | backend/src/commandes-rest/commandes-rest.controller.ts:85-187 | an order is created exactly with a positive quantity and the stock its status needs; refused, nothing moves |
| `OperationLois.MajExact` | backend/src/commandes-rest/commandes-rest.controller.ts:313-362 | a change of status writes that status, unless the order confirmed is on a harvest that is not there |
| `OperationLois.MarcheApres` | backend/src/commandes-rest/commandes-rest.controller.ts:335-362 | confirming an order sells it, cancelling it releases it, every other change leaves the market as it was |
| `Commandes.RunVendu` | backend/src/commandes-rest/commandes-rest.controller.ts:335-362 | over every run of orders a harvest's `stock_vendu` is what it started with plus the rows converted out of it, by the market or direct |
| `Commandes.MasseEtape` | backend/src/commandes-rest/commandes-rest.controller.ts:139-187 | available + reserved + sold changes exactly at the two call sites that convert without a reservation, by exactly the shortage |
| `Commandes.RunMasse` | backend/src/commandes-rest/commandes-rest.controller.ts:85-187 | over every run of orders, what a publication has left, holds and has sold is what it started with plus the shortages of those two call sites; nothing left is negative |
| `Commandes.RunRecolte` | backend/src/commandes/stock-reservation.service.ts:130-198 | over every run of orders, available + sold of a harvest is what it started with plus the shortages clamped away; sold never goes down |
| `Commandes.RecolteEvenement` | backend/src/commandes-rest/commandes-rest.controller.ts:335-362 | an event sells out of a harvest exactly the quantity of the order it confirms, unless that order was sold or released already |
| `FinLois.RunVidange` | backend/src/commandes/stock-reservation.service.ts:130-140 | over every run of orders a harvest only loses stock, and one that moved is marked sold if and only if it was already or has nothing left |
| `FinLois.RunStatut` | backend/src/commandes/stock-reservation.service.ts:142-147 | over every run of orders a publication's status only goes from on offer to exhausted |
| `FinLois.PublicationEvenement` | backend/src/commandes/stock-reservation.service.ts:142-147 | it does so only in a conversion that leaves it empty, and a conversion that writes never leaves an empty one on offer |
| `FinLois.RunEpuisee` | backend/src/commandes/stock-reservation.service.ts:205-227 | over every run of orders, an exhausted publication is empty after every step if and only if no step cancels an order that still holds some of an exhausted publication |
| `FinLois.RenduMaisEpuise` | backend/src/publications-rest/publications-rest.controller.ts:58-63 | a run, for every quantity: one half sold, the other released; the publication keeps that half and stays exhausted whatever orders follow |
| `Commandes.EtapeFidele` | backend/src/commandes-rest/commandes-rest.controller.ts:596-600 | every row carries its own order's publication and quantity |
| `ReservationService.ServiceReservation.Reserver` | backend/src/commandes/stock-reservation.service.ts:38-73 | the reservation, step by step, leaves the tables and gives the refusal the laws are about |
| `ReservationService.ServiceReservation.Convertir` | backend/src/commandes/stock-reservation.service.ts:84-148 | the same for a conversion |
| `ReservationService.ServiceReservation.ConvertirRecolteDirecte` | backend/src/commandes/stock-reservation.service.ts:158-198 | the same for a direct sale of a harvest |
| `ReservationService.ServiceReservation.Liberer` | backend/src/commandes/stock-reservation.service.ts:205-227 | the same for a release |
| `Entrelacements.PasRaffine` | backend/src/commandes/stock-reservation.service.ts:38-227 | each statement of each process leaves the committed tables alone or changes them as its whole transaction would at that instant |
| `Entrelacements.AccepterRaffine` | backend/src/commandes-rest/commandes-rest.controller.ts:511-515 | the commit of an accepted negotiation is its reservation followed by its conversion, whatever ran in between |
| `Entrelacements.PasGarde` | backend/src/commandes/stock-reservation.service.ts:50-60 | row locks keep true what every process has read, in every reachable state |
| `Entrelacements.Serialisable` | backend/src/commandes/stock-reservation.service.ts:38-227 | whatever the interleaving and the aborts, the committed tables are those of the committed transactions run one after the other in commit order |
| `Entrelacements.InterblocagePossible` | backend/src/commandes/stock-reservation.service.ts:84-100 | deadlocks are possible: from any tables with an active row, two statements lead to a conversion and a release that wait for each other |
| `Verrou.AnnonceHonnete` | backend/src/auth/verrou-pin.ts:46-61 | what is announced is exactly the distance to the next wait |
| `Verrou.BorneParJour` | backend/src/auth/verrou-pin.ts:46-51 | on one counter, tries one after the other in time and no reset: any 24 hours compare through it at most 78 wrong codes from any state, at most 72 once six failures are behind |
| `Verrou.BorneAtteinte` | backend/src/auth/verrou-pin.ts:20-32 | 78 is reached from a fresh counter |
| `Verrou.CumulFerme` | backend/src/auth/verrou-pin.ts:46-51 | the waits imposed before failure number e are those of the (e - 1) / 3 steps climbed: 5 min, 20 min, then an hour a step |
| `Verrou.JamaisPrisPourHerite` | backend/src/auth/verrou-pin.ts:80-85 | on every run a lock of the ladder is never taken for an inherited endless one, so never lifted early |
| `Verrou.CompteursIndependants` | backend/src/auth/auth.controller.ts:552-606 | login and pin/verify share one counter, the identificateur's PIN routes another; neither sees the other's routes, nor the four that compare without a counter |
| `Verrou.TotalDuJour` | backend/src/auth/auth.controller.ts:230-345 | the wrong codes compared with an account's secrets in a day, over all its routes, are those its counter sees plus those of the routes that use none |
| `Verrou.BornesDuCompte` | backend/src/auth/auth.controller.ts:230-662 | with tries one after the other and no reset: at most 78, or 72 once six failures are behind, plus those of the routes that use no counter; none for the identificateur's PIN, whatever logins succeed in between |
| `Verrou.BorneSiTousComptes` | backend/src/auth/auth.controller.ts:254-294 | so 78 and 72 hold, over all the account's routes, of every run that uses none of the four |
| `Verrou.SansCompteurSansBorne` | backend/src/auth/auth.controller.ts:313-345 | from any account, also during a wait, each of the four routes compares any number n of wrong codes in one instant and changes nothing |
| `Verrou.BorneExacte` | backend/src/auth/auth.controller.ts:330-345 | the bound of 78 plus n is reached for every n: a run without reset compares n wrong codes on these routes and k + n in all, for every k up to 78 |
| `Verrou.VerrouPin.Tentative` | backend/src/auth/auth.controller.ts:254-294 | a try, step by step on the two columns, leaves the counter and gives the verdict the laws are about |
| `VerrouLois.EssaiExact` | backend/src/auth/auth.controller.ts:254-294 | during a wait nothing is compared; outside one a right code is accepted and resets the counter where it may; a wrong one adds one failure and every third starts its wait; a lock that ends later than a day is lifted with its count |
| `VerrouLois.RunHistoire` | backend/src/auth/auth.controller.ts:254-294 | over every run in time order from a fresh counter, the count is that of the wrong codes compared since the last reset, read off the tries alone, and the next answer follows from it |
| `VerrouLois.CodeJuste` | backend/src/auth/auth.service.ts:240-305 | outside a wait a right code at pin/verify, at the identificateur's routes or at the login of an active account leaves a fresh counter; the login of another account leaves it as it was |
| `VerrouLois.CodeFaux` | backend/src/auth/auth.service.ts:262-285 | outside a wait a wrong code adds one failure to the counter of its secret and to no other |
| `VerrouLois.PendantLAttente` | backend/src/auth/auth.controller.ts:272-275 | during the wait of a counter its routes compare nothing and leave the account as it is |
| `VerrouLois.RoutesSansCompteur` | backend/src/auth/auth.controller.ts:230-392 | which secret each of the four other routes compares and when; a wrong code changes nothing |
| `Jetons.RunSain` | backend/src/auth/auth.service.ts:379-504 | over every run, with sessions closed one by one or all at once, used implies revoked, ids are unique, nobody has more than five active tokens |
| `Jetons.NouvelleSession` | backend/src/auth/auth.service.ts:447-496 | a new session keeps the user's newest ones, at most four, and adds itself; everyone else keeps exactly theirs |
| `Jetons.MortPourToujours` | backend/src/auth/auth.service.ts:379-420 | a dead token is refused, now and after any run |
| `Jetons.RotationConsomme` | backend/src/auth/auth.service.ts:409-428 | a rotation kills the token presented and gives one live new one; a logout kills too |
| `Jetons.CompromissionRevoqueTout` | backend/src/auth/auth.service.ts:390-395 | a consumed token presented again leaves its user without any active token |
| `SessionLois.CinqSessions` | backend/src/auth/auth.service.ts:483-496 | below five active sessions a new one closes none; from five on, the newest four stay with it |
| `SessionLois.RotationExacte` | backend/src/auth/auth.service.ts:379-420 | a rotation succeeds if and only if the token is neither used nor revoked nor expired and its user exists; each refusal has its own condition and effect; the new token is that user's, with the expiry asked for |
| `SessionLois.RotationInconnue` | backend/src/auth/auth.service.ts:379-388 | a token without a row is refused and nothing moves |
| `SessionLois.ExpireJamaisTourne` | backend/src/auth/auth.service.ts:404-407 | over every run, a token presented after its expiry is refused, whatever happened since |
| `SessionLois.NouveauVientDe` | backend/src/auth/auth.service.ts:409-480 | every new session comes from a connection, or from a rotation of a live token of the same user |
| `SessionLois.FermeturesExactes` | backend/src/auth/auth.controller.ts:201-215 | a logout spends one token, closing a session revokes one's own, closing all revokes each of the user's and marks them used or not according to the route, cleaning removes exactly the expired; no other row moves |
| `SessionLois.RunRangs` | backend/src/auth/auth.service.ts:447-480 | over every run rows keep their order, their user and their expiry |
| `Jetons.ServiceJetons.Limiter` | backend/src/auth/auth.service.ts:483-496 | the revocation loop leaves the rows the laws are about |
| `Jetons.ServiceJetons.GenererEtEnregistrer` | backend/src/auth/auth.service.ts:447-480 | the same for generating and storing a token |
| `Jetons.ServiceJetons.TournerJeton` | backend/src/auth/auth.service.ts:379-420 | the same for a rotation |
| `Portefeuilles.RunEcart` | backend/src/admin/admin-wallets.service.ts:273-330 | over every run of admin movements, order payments, transfers and contributions no balance goes below zero, and each is what its journal says plus the orders its owner paid to herself |
| `Portefeuilles.RunSolde` | backend/src/commandes-rest/commandes-rest.controller.ts:216-308 | after a run every balance is credits minus debits of its journal if and only if nobody paid an order to herself |
| `Portefeuilles.CommanderASoiMeme` | backend/src/commandes-rest/commandes-rest.controller.ts:271-277 | a concrete run: credited 100, she orders from herself for 40 and collects; she holds 140 and her journal says 100 |
| `Portefeuilles.PaiementConserve` | backend/src/commandes-rest/commandes-rest.controller.ts:271-277 | a payment conserves the total money if and only if buyer and seller differ |
| `Portefeuilles.RunMouvement` | backend/src/commandes-rest/commandes-rest.controller.ts:223-305 | over every run an order's journal rows are none, or its debit and its credit once, and then it is paid |
| `Portefeuilles.TransfertExact` | backend/src/wallets/wallets.service.ts:247-339 | a transfer that is not a replay moves its amount between the two wallets, conserves the total and touches nobody else; every other answer changes nothing; the balance announced is the sender's then |
| `Portefeuilles.TransfertUneFois` | backend/src/wallets/wallets.service.ts:267-283 | a keyed transfer that succeeded moves no money again, after any run and whatever amount and recipient come with the key |
| `Portefeuilles.RunJournal` | backend/src/wallets/wallets.service.ts:330-339 | over every run the journal only grows, and no user has two rows of one key in one direction |
| `PortefeuilleLois.MouvementsExacts` | backend/src/admin/admin-wallets.service.ts:273-330 | an administrator's credit or debit and a contribution are done exactly when they may be, move one balance by their amount with one journal row, and nothing else |
| `PortefeuilleLois.RefusExacts` | backend/src/admin/admin-wallets.service.ts:273-330 | which refusal: a bad request, a wallet that is not there, a suspended account, too little available |
| `PortefeuilleLois.ReinitialiserExact` | backend/src/admin/admin-wallets.service.ts:400-426 | a reset empties both columns of one wallet and journals the balance it takes |
| `PortefeuilleLois.PayerExact` | backend/src/commandes-rest/commandes-rest.controller.ts:200-311 | who may collect an order, when money moves, with which two journal rows, and that the order is then paid |
| `PortefeuilleLois.RunApports` | backend/src/admin/admin-wallets.service.ts:273-426 | over every run each balance is what it was plus what every request brought it, said from the request and what it needs |
| `PortefeuilleLois.RunEtats` | backend/src/admin/admin-wallets.service.ts:400-426 | over every run an account is suspended as last asked, and what is blocked stays until a reset |
| `Portefeuilles.BaseArgent.CreditWallet` | backend/src/admin/admin-wallets.service.ts:273-301 | the route, step by step, leaves the tables and gives the refusal the laws are about |
| `Portefeuilles.BaseArgent.DebitWallet` | backend/src/admin/admin-wallets.service.ts:303-330 | the same for a debit |
| `Portefeuilles.BaseArgent.ReinitialiserWallet` | backend/src/admin/admin-wallets.service.ts:400-426 | the same for a reset |
| `Portefeuilles.BaseArgent.RecupererPaiement` | backend/src/commandes-rest/commandes-rest.controller.ts:200-311 | the same for an order's payment |
| `Portefeuilles.BaseArgent.Transfert` | backend/src/wallets/wallets.service.ts:247-358 | the same for a transfer between accounts |
| `Portefeuilles.BaseArgent.EnregistrerCotisation` | backend/src/protection-sociale/protection-sociale.controller.ts:67-139 | the same for a contribution, which moves the wallet only when paid from it |
| `Boutique.Convergence` | backend/src/boutique/boutique.service.ts:20-72 | two histories that sent the same movements, in any order and batching and with any duplicates and other merchants, give the same stock, cash and count |
| `Boutique.RejeuEstSomme` | backend/src/boutique/boutique.service.ts:52-72 | the replay is a sum per product, a sum of amounts and a count |
| `Boutique.RejeuEnClair` | backend/src/boutique/boutique.service.ts:46-72 | of each product named, the stock is what came in by supplies and expenses less what was sold; the cash is the sales less the expenses; movements of another kind move neither |
| `Boutique.OrdreIndifferent` | backend/src/boutique/boutique.service.ts:52-55 | the order of the journal does not change the replay |
| `Boutique.ContenuExact` | backend/src/boutique/boutique.service.ts:20-40 | when an id determines its movement, the rows are exactly what was sent |
| `Boutique.TriTrie` | backend/src/boutique/boutique.service.ts:54 | the journal is replayed in the order of `ts` |
| `Boutique.JournalBoutique.Synchroniser` | backend/src/boutique/boutique.service.ts:20-44 | the upload loop writes each new id once and acknowledges them all |
| `Boutique.JournalBoutique.LireEtat` | backend/src/boutique/boutique.service.ts:52-72 | the replay loop computes that state |
| `Miroir.MiroirExact` | backend/src/catalogue-maitre/catalogue-maitre.service.ts:107-147 | after a non-empty list no code is lost, listed codes are as last listed, all others inactive |
| `Miroir.BilanExact` | backend/src/catalogue-maitre/catalogue-maitre.service.ts:116-150 | created + updated = read, the mirror grew by what was created, the references withdrawn are counted; an empty list changes nothing |
| `Miroir.Rejouee` | backend/src/catalogue-maitre/catalogue-maitre.service.ts:107-150 | running the same list again creates and deactivates nothing and changes no row |
| `Miroir.SeuleLaDerniereListeCompte` | backend/src/catalogue-maitre/catalogue-maitre.service.ts:136-147 | what a later list leaves active does not depend on the earlier one |
| `Miroir.RunAdoption` | backend/src/catalogue-maitre/catalogue-maitre.service.ts:213-286 | over every run, deletions included, an adopted product keeps an existing master code, one per merchant and code; no code disappears, no deleted product comes back |
| `Miroir.AdoptionReussit` | backend/src/catalogue-maitre/catalogue-maitre.service.ts:213-286 | an adoption succeeds exactly for a valid request, an active reference and no product of that code, each refusal with its condition; the new product takes name and category from the master, price, cost, stock and unit from the request or their defaults |
| `Miroir.ReadoptionSsiEfface` | backend/src/catalogue-maitre/catalogue-maitre.service.ts:229-241 | after any run, for a valid request on an active reference, a merchant can adopt again a reference she adopted if and only if the product of her last adoption of it was deleted; otherwise the refusal names that product; the new product carries the code and the master's name |
| `Miroir.UneSeuleAdoptionSaufEffacement` | backend/src/catalogue-maitre/catalogue-maitre.service.ts:229-241 | with no second adoption in between, it succeeds if and only if she asked for the deletion of that product |
| `Miroir.AdopterEffacerAdopter` | backend/src/stocks-rest/stocks-rest.controller.ts:262-270 | adopted, deleted, adopted again: the second adoption succeeds, as a new product |
| `Miroir.EffaceSsiDemande` | backend/src/stocks-rest/stocks-rest.controller.ts:262-270 | over every run a product's row is gone exactly when its owner asked for its deletion |
| `Miroir.ServiceMiroir.SynchroniserMiroir` | backend/src/catalogue-maitre/catalogue-maitre.service.ts:107-162 | the synchronisation loop leaves the mirror and the report the laws are about |
| `Miroir.ServiceMiroir.AdopterReference` | backend/src/catalogue-maitre/catalogue-maitre.service.ts:213-286 | the same for an adoption |

## Left out

How the model reads the source:

- Amounts and quantities are exact numbers; SQL scales and floating point are not modelled. Instants are UTC milliseconds, and `created_at::date` is the UTC day.
- A row's id is its position in its table; only products are deleted, and leave their place empty. A uuid as text is `TexteId`. `LIMIT 1` by name takes the lowest id, and a restitution visits products in id order.
- A total given as the number 0 is read as absent, given as text as 0.
- `lower()` and `trim()` are over ASCII. An amount with text after its number, which `parseFloat` reads and the database refuses, is not distinguished from an unreadable one on a sale.
- Tries on an account are sequential: login and `pin/verify` read the counter, compare, and write it later without a lock, so tries sent together can be compared under one count. The rate limiter is not modelled; runs are of the requests it lets through.
- Till requests are sequential: the sale and expense guards read the session outside the write transaction, and that race is not modelled. Reservations are modelled concurrently.
- Writes to the float journal are assumed to succeed; the code logs a failure and goes on.
- Codes are right or wrong as a boolean, hashing is injective, a new token's value is fresh, and its lifetime is a parameter.
- `InterblocagePossible` shows a deadlock; freedom from deadlock is not claimed. PostgreSQL then aborts one of the transactions, which the schedules include.
- `Miroir.ServiceMiroir.AdopterReference`: the check by the unique index on a concurrent adoption is not modelled; adoptions are sequential.
- `Serialisable`: a transaction writes at its commit; that its first INSERT makes another insertion of the same order wait, and not only fail, is not modelled.
- `RejeuxSuperflus`: credit creation is not a keyed request; its key guards the first payment only, as the code has it.

What is not modelled:

- Free order-status transitions and who may ask for them: only the calls into the reservation service are.
- Margins of a sale (`marge-vente.ts`): two sums that change no other table.
- Runs of orders exclude what owners do to their own rows outside orders: editing or deleting a publication (`publications-rest.controller.ts:222-265`), editing or deleting a harvest.
- The stock routes of cooperatives and producers, which work on another table; adoption writes its own copy of the product table, where the till's stock is not followed.
- Cooperative stock, fidelity points, activation codes, role tables: the same ledger or one-branch shapes.
- `Portefeuilles.RunSolde`, `Portefeuilles.RunEcart`: the runs exclude the other writers of `wallets.solde`. Recharges, withdrawals and card payments (`bpay/`, `wallets.controller.ts:60-120`, `wallets-public.controller.ts`) follow a remote provider's answer; the turns of a tontine (`tontines.service.ts:200-250`) go through `debitWallet` and `creditWallet`, the debit and credit modelled with another guard on the caller; nothing calls `blockFunds`, `releaseFunds` or `refundFunds`.
- Rows of `cotisations_sociales`: a contribution's row carries no balance.
- Notifications, alerts, sockets, audit rows other than those of credits, reports, dashboards, the financial score, schema creation and seeds, guards and DTOs other than the adoption's.
