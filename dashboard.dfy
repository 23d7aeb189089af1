/** Per-company credit position of a customer
    (frappe_utils/website_customization/api/dashboard.py). The two SQL
    aggregates arrive as maps from company to amount; amounts are integers
    (minor currency units). */
module Dashboard {

  datatype CompanyLine = CompanyLine(company: string, creditLimit: int, outstanding: int, balance: int)

  datatype Totals = Totals(creditLimit: int, outstanding: int, balance: int)

  datatype FinancialInfo = FinancialInfo(customer: string, companyWise: seq<CompanyLine>, totals: Totals)

  datatype Outcome = Info(info: FinancialInfo) | ValueError(message: string)

  /** `m.get(company, 0)`. */
  function AmountOr0(m: map<string, int>, company: string): (a: int)
    ensures company in m ==> a == m[company]
    ensures company !in m ==> a == 0
  {
    if company in m then m[company] else 0
  }

  function SumCredit(lines: seq<CompanyLine>): int
  {
    if lines == [] then 0 else SumCredit(lines[..|lines| - 1]) + lines[|lines| - 1].creditLimit
  }

  function SumOutstanding(lines: seq<CompanyLine>): int
  {
    if lines == [] then 0 else SumOutstanding(lines[..|lines| - 1]) + lines[|lines| - 1].outstanding
  }

  function SumBalance(lines: seq<CompanyLine>): int
  {
    if lines == [] then 0 else SumBalance(lines[..|lines| - 1]) + lines[|lines| - 1].balance
  }

  /** The companies that have a line. */
  function Companies(lines: seq<CompanyLine>): set<string>
  {
    if lines == [] then {}
    else Companies(lines[..|lines| - 1]) + {lines[|lines| - 1].company}
  }

  /** No company has two lines. */
  predicate DistinctCompanies(lines: seq<CompanyLine>)
  {
    forall i, j :: 0 <= i < j < |lines| ==> lines[i].company != lines[j].company
  }

  /** The line the loop builds for one company. */
  predicate LineFor(line: CompanyLine, creditLimits: map<string, int>, outstanding: map<string, int>)
  {
    && line.creditLimit == AmountOr0(creditLimits, line.company)
    && line.outstanding == AmountOr0(outstanding, line.company)
    && line.balance == line.creditLimit - line.outstanding
  }

  /** A company has a line exactly when it is in `Companies`. */
  lemma {:induction false} CompaniesSpec(lines: seq<CompanyLine>, c: string)
    ensures c in Companies(lines) <==> exists i :: 0 <= i < |lines| && lines[i].company == c
  {
    if lines != [] {
      var front := lines[..|lines| - 1];
      CompaniesSpec(front, c);
      if c in Companies(front) {
        var i :| 0 <= i < |front| && front[i].company == c;
        assert lines[i] == front[i];
      }
      assert forall i :: 0 <= i < |front| ==> lines[i] == front[i];
    }
  }

  /** Appending the line of a company that has none keeps companies distinct
      and adds the line's amounts to the sums. */
  lemma AppendLine(lines: seq<CompanyLine>, line: CompanyLine)
    requires DistinctCompanies(lines) && line.company !in Companies(lines)
    ensures DistinctCompanies(lines + [line])
    ensures Companies(lines + [line]) == Companies(lines) + {line.company}
    ensures SumCredit(lines + [line]) == SumCredit(lines) + line.creditLimit
    ensures SumOutstanding(lines + [line]) == SumOutstanding(lines) + line.outstanding
    ensures SumBalance(lines + [line]) == SumBalance(lines) + line.balance
  {
    assert (lines + [line])[..|lines|] == lines;
    forall i | 0 <= i < |lines| ensures lines[i].company != line.company {
      CompaniesSpec(lines, line.company);
    }
  }

  /** When every line's balance is its credit limit minus its outstanding, so is the total. */
  lemma {:induction false} TotalBalance(lines: seq<CompanyLine>)
    requires forall i :: 0 <= i < |lines| ==> lines[i].balance == lines[i].creditLimit - lines[i].outstanding
    ensures SumBalance(lines) == SumCredit(lines) - SumOutstanding(lines)
  {
    if lines != [] {
      TotalBalance(lines[..|lines| - 1]);
    }
  }

  /** What the company loop has established once `remaining` is left to visit. */
  predicate Visited(companies: set<string>, remaining: set<string>, results: seq<CompanyLine>,
                    creditLimits: map<string, int>, outstanding: map<string, int>)
  {
    && remaining + Companies(results) == companies
    && remaining !! Companies(results)
    && DistinctCompanies(results)
    && forall i :: 0 <= i < |results| ==> LineFor(results[i], creditLimits, outstanding)
  }

  /** Visiting one more company keeps `Visited`. */
  lemma VisitOne(companies: set<string>, remaining: set<string>, results: seq<CompanyLine>,
                 creditLimits: map<string, int>, outstanding: map<string, int>, line: CompanyLine)
    requires Visited(companies, remaining, results, creditLimits, outstanding)
    requires line.company in remaining && LineFor(line, creditLimits, outstanding)
    ensures Visited(companies, remaining - {line.company}, results + [line], creditLimits, outstanding)
    ensures SumCredit(results + [line]) == SumCredit(results) + line.creditLimit
    ensures SumOutstanding(results + [line]) == SumOutstanding(results) + line.outstanding
    ensures SumBalance(results + [line]) == SumBalance(results) + line.balance
  {
    AppendLine(results, line);
  }

  /** The company loop of `get_financial_info`: one line per company of either
      map, visited in no particular order, and the running totals. */
  method CompanyLines(creditLimits: map<string, int>, outstanding: map<string, int>)
    returns (results: seq<CompanyLine>, totals: Totals)
    ensures Companies(results) == creditLimits.Keys + outstanding.Keys
    ensures DistinctCompanies(results)
    ensures forall i :: 0 <= i < |results| ==> LineFor(results[i], creditLimits, outstanding)
    ensures totals == Totals(SumCredit(results), SumOutstanding(results), SumBalance(results))
  {
    results := [];
    var totalCredit, totalOutstanding, totalBalance := 0, 0, 0;
    var companies := creditLimits.Keys + outstanding.Keys;
    var remaining := companies;
    while remaining != {}
      invariant Visited(companies, remaining, results, creditLimits, outstanding)
      invariant totalCredit == SumCredit(results)
      invariant totalOutstanding == SumOutstanding(results)
      invariant totalBalance == SumBalance(results)
      decreases remaining
    {
      var comp :| comp in remaining;
      var cr := AmountOr0(creditLimits, comp);
      var out := AmountOr0(outstanding, comp);
      var bal := cr - out;
      totalCredit := totalCredit + cr;
      totalOutstanding := totalOutstanding + out;
      totalBalance := totalBalance + bal;
      var line := CompanyLine(comp, cr, out, bal);
      VisitOne(companies, remaining, results, creditLimits, outstanding, line);
      results := results + [line];
      remaining := remaining - {comp};
    }
    totals := Totals(totalCredit, totalOutstanding, totalBalance);
  }

  /** `get_financial_info`: an empty customer is an error; otherwise the
      customer, one line per company found in either map, and the totals, whose
      balance is the total credit limit minus the total outstanding. */
  method GetFinancialInfo(customer: string, creditLimits: map<string, int>, outstanding: map<string, int>)
    returns (r: Outcome)
    ensures customer == "" <==> r.ValueError?
    ensures r.ValueError? ==> r.message == "Customer is required"
    ensures r.Info? ==> r.info.customer == customer
    ensures r.Info? ==> Companies(r.info.companyWise) == creditLimits.Keys + outstanding.Keys
    ensures r.Info? ==> DistinctCompanies(r.info.companyWise)
    ensures r.Info? ==> forall i :: 0 <= i < |r.info.companyWise| ==>
                          LineFor(r.info.companyWise[i], creditLimits, outstanding)
    ensures r.Info? ==> r.info.totals.creditLimit == SumCredit(r.info.companyWise)
    ensures r.Info? ==> r.info.totals.outstanding == SumOutstanding(r.info.companyWise)
    ensures r.Info? ==> r.info.totals.balance == r.info.totals.creditLimit - r.info.totals.outstanding
  {
    if customer == "" {
      return ValueError("Customer is required");
    }
    var results, totals := CompanyLines(creditLimits, outstanding);
    TotalBalance(results);
    r := Info(FinancialInfo(customer, results, totals));
  }
}
