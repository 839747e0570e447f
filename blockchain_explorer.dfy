/** The public ledger explorer: ten blocks per page, newest first, a search
    box over digests and block numbers, and previous/next page controls. */
module BlockchainExplorer {
  import opened Types
  import opened Text
  import opened Seqs
  import opened Store

  const ItemsPerPage: nat := 10
  const GenesisLabel: string := "GENESIS (First Block)"

  /** `searchParams.get("hash") || ""` */
  function InitialQuery(hashParam: Option<string>): string {
    if hashParam.Some? then hashParam.value else ""
  }

  /** The inclusive offsets `.range(from, to)` asks for on page p. */
  function PageRange(page: nat): (r: (int, int))
    requires page >= 1
    ensures r.0 >= 0 && r.1 - r.0 + 1 == ItemsPerPage
    ensures r.0 == ItemsPerPage * (page - 1)
  {
    ((page - 1) * ItemsPerPage, page * ItemsPerPage - 1)
  }

  /** Consecutive pages are adjacent and do not overlap. */
  lemma PagesAdjacent(page: nat)
    requires page >= 1
    ensures PageRange(page + 1).0 == PageRange(page).1 + 1
  {
  }

  /** `.range(from, to)`: the rows at offsets from through to, both included,
      cut short at the end of the result; none when from is past the end. */
  function RangeRows<T>(rows: seq<T>, from: nat, to: int): (r: seq<T>)
    ensures |r| <= if to < from then 0 else to - from + 1
    ensures from < |rows| && from <= to ==> |r| == if to < |rows| then to - from + 1 else |rows| - from
  {
    if from >= |rows| || to < from then []
    else if to < |rows| then rows[from..to + 1]
    else rows[from..]
  }

  /** Row i of a range is the row at offset from + i. */
  lemma RangeRowsAt<T>(rows: seq<T>, from: nat, to: int)
    ensures var r := RangeRows(rows, from, to);
      forall i :: 0 <= i < |r| ==> from + i < |rows| && r[i] == rows[from + i]
  {
  }

  /** Page p of rows already in display order. */
  function PageOf<T>(rows: seq<T>, page: nat): seq<T>
    requires page >= 1
  {
    var range := PageRange(page);
    RangeRows(rows, range.0, range.1)
  }

  /** The rows page p shows: the ledger ordered by block number, highest
      first, then ranged. */
  function PageRows(votes: seq<VoteRow>, page: nat): seq<VoteRow>
    requires page >= 1
  {
    PageOf(SortDesc(votes, BlockNumber), page)
  }

  /** Pages 1 through k of the given rows, one after another. */
  function FirstPages<T>(rows: seq<T>, k: nat): seq<T>
    decreases k
  {
    if k == 0 then [] else FirstPages(rows, k - 1) + PageOf(rows, k)
  }

  /** Pages 1 through k show the first 10k rows, each exactly once and in
      order. */
  lemma {:induction false} PagesTile<T>(rows: seq<T>, k: nat)
    ensures FirstPages(rows, k) == rows[..if ItemsPerPage * k < |rows| then ItemsPerPage * k else |rows|]
    decreases k
  {
    if k > 0 {
      PagesTile(rows, k - 1);
      var lo, hi := ItemsPerPage * (k - 1), ItemsPerPage * k;
      var prev := if lo < |rows| then lo else |rows|;
      var next := if hi < |rows| then hi else |rows|;
      PageIsSlice(rows, k);
      assert rows[..prev] + rows[prev..next] == rows[..next];
    }
  }

  /** Page k is the slice of the rows from 10(k - 1) to 10k, both cut at
      the end of the rows. */
  lemma PageIsSlice<T>(rows: seq<T>, k: nat)
    requires k >= 1
    ensures var lo, hi := ItemsPerPage * (k - 1), ItemsPerPage * k;
      PageOf(rows, k) == rows[if lo < |rows| then lo else |rows|..if hi < |rows| then hi else |rows|]
  {
    var lo, hi := ItemsPerPage * (k - 1), ItemsPerPage * k;
    assert PageRange(k) == (lo, hi - 1);
    var page := PageOf(rows, k);
    if lo >= |rows| {
      assert page == [];
    } else if hi - 1 < |rows| {
      assert page == rows[lo..hi];
    } else {
      assert page == rows[lo..];
    }
  }

  /** `Math.ceil(totalBlocks / itemsPerPage)` */
  function TotalPages(totalBlocks: nat): (t: nat)
    ensures ItemsPerPage * t >= totalBlocks
    ensures t > 0 ==> ItemsPerPage * (t - 1) < totalBlocks
  {
    (totalBlocks + ItemsPerPage - 1) / ItemsPerPage
  }

  /** Paging through all the pages shows the whole ledger, newest first. */
  lemma AllPagesShowLedger(votes: seq<VoteRow>)
    ensures FirstPages(SortDesc(votes, BlockNumber), TotalPages(|votes|)) == SortDesc(votes, BlockNumber)
  {
    SortDescHeadLength(votes);
    PagesTile(SortDesc(votes, BlockNumber), TotalPages(|votes|));
  }

  lemma SortDescHeadLength(votes: seq<VoteRow>)
    ensures |SortDesc(votes, BlockNumber)| == |votes|
  {
    if votes != [] {
      SortDescHeadIsMax(votes, BlockNumber);
    }
  }

  /** Every block on a page has a block number at least that of every block
      on the next page. */
  lemma PagesNewestFirst(votes: seq<VoteRow>, page: nat, i: nat, j: nat)
    requires page >= 1
    requires i < |PageRows(votes, page)| && j < |PageRows(votes, page + 1)|
    ensures PageRows(votes, page)[i].blockNumber >= PageRows(votes, page + 1)[j].blockNumber
  {
    var s := SortDesc(votes, BlockNumber);
    SortDescProperties(votes, BlockNumber);
    RangeRowsAt(s, ItemsPerPage * (page - 1), ItemsPerPage * page - 1);
    RangeRowsAt(s, ItemsPerPage * page, ItemsPerPage * (page + 1) - 1);
    assert PageRows(votes, page)[i] == s[ItemsPerPage * (page - 1) + i];
    assert PageRows(votes, page + 1)[j] == s[ItemsPerPage * page + j];
    assert BlockNumber(s[ItemsPerPage * (page - 1) + i]) >= BlockNumber(s[ItemsPerPage * page + j]);
  }

  /** `totalBlocks > 0 ? totalBlocks - 1 : 0` */
  function ChainLinks(totalBlocks: nat): nat {
    if totalBlocks > 0 then totalBlocks - 1 else 0
  }

  predicate HasPredecessor(v: VoteRow) {
    v.previousHash.Some?
  }

  /** On a well-formed ledger the link count is the number of blocks that
      name a predecessor. */
  lemma ChainLinksCountLinks(votes: seq<VoteRow>)
    requires ChainShaped(votes)
    ensures ChainLinks(|votes|) == |Filter(votes, HasPredecessor)|
  {
    if votes != [] {
      var t := votes[1..];
      assert votes == [votes[0]] + t;
      assert forall i :: 0 <= i < |t| ==> HasPredecessor(t[i]) by {
        forall i | 0 <= i < |t| ensures HasPredecessor(t[i]) {
          assert t[i] == votes[i + 1];
          ChainAt(votes, i + 1);
        }
      }
      FilterAll(t, HasPredecessor);
      FilterCons(votes[0], t, HasPredecessor);
    }
  }

  /** `vote.previous_hash || "GENESIS (First Block)"` */
  function PreviousHashLabel(previousHash: Option<string>): string {
    if Truthy(previousHash) then previousHash.value else GenesisLabel
  }

  /** On a well-formed ledger the first block is labelled as the genesis
      block and every other block shows its predecessor's digest. */
  lemma GenesisLabelOnFirstBlock(votes: seq<VoteRow>, i: nat)
    requires ChainShaped(votes) && i < |votes|
    ensures i == 0 ==> PreviousHashLabel(votes[i].previousHash) == GenesisLabel
    ensures i > 0 ==> PreviousHashLabel(votes[i].previousHash) == votes[i - 1].voteHash
  {
  }

  /** The search predicate: the digest contains the query ignoring case, or
      the decimal block number contains it as typed. */
  function Matches(query: string): VoteRow -> bool {
    (v: VoteRow) => Contains(Lower(v.voteHash), Lower(query)) || Contains(DecimalOfInt(v.blockNumber), query)
  }

  /** The search effect: every row for an empty query, otherwise the rows
      that match, in their order, one per matching position (a row stored
      twice is listed twice). */
  function Search(votes: seq<VoteRow>, query: string): (r: seq<VoteRow>)
    ensures query == "" ==> r == votes
    ensures IsSubsequence(r, votes)
    ensures query != "" ==> forall i :: 0 <= i < |r| ==> Matches(query)(r[i])
    ensures forall i :: 0 <= i < |votes| && (query == "" || Matches(query)(votes[i])) ==> votes[i] in r
    ensures query != "" ==> |r| == |Positions(votes, Matches(query))|
  {
    if query == "" then
      SubsequenceRefl(votes);
      votes
    else
      FilterIsSubsequence(votes, Matches(query));
      FilterCountsPositions(votes, Matches(query));
      Filter(votes, Matches(query))
  }

  lemma {:induction false} SubsequenceRefl<T>(s: seq<T>)
    ensures IsSubsequence(s, s)
    decreases |s|
  {
    if s != [] {
      SubsequenceRefl(s[1..]);
    }
  }

  /** A link to the explorer carrying a block's digest, in any letter case,
      finds that block among the loaded rows. */
  lemma HashLinkFindsBlock(votes: seq<VoteRow>, i: nat, caseVariant: string)
    requires i < |votes|
    requires Lower(caseVariant) == Lower(votes[i].voteHash)
    ensures votes[i] in Search(votes, InitialQuery(Some(caseVariant)))
  {
    var q := InitialQuery(Some(caseVariant));
    if q != "" {
      assert Lower(votes[i].voteHash)[..|Lower(q)|] == Lower(q);
      assert Matches(q)(votes[i]);
    }
  }

  /** Searching for a block's decimal number finds that block. */
  lemma NumberQueryFindsBlock(votes: seq<VoteRow>, i: nat)
    requires i < |votes|
    ensures votes[i] in Search(votes, DecimalOfInt(votes[i].blockNumber))
  {
    var q := DecimalOfInt(votes[i].blockNumber);
    assert q[..|q|] == q;
    assert Matches(q)(votes[i]);
  }

  class ExplorerPage {
    var searchQuery: string
    var currentPage: int
    var totalBlocks: nat
    var votes: seq<VoteRow>
    var filteredVotes: seq<VoteRow>

    /** The page number is at least 1 and the rows shown are always the
        search over the loaded rows. */
    ghost predicate Valid()
      reads this
    {
      && currentPage >= 1
      && filteredVotes == Search(votes, searchQuery)
    }

    constructor (hashParam: Option<string>)
      ensures Valid()
      ensures searchQuery == InitialQuery(hashParam) && currentPage == 1
      ensures totalBlocks == 0 && votes == [] && filteredVotes == []
    {
      searchQuery := InitialQuery(hashParam);
      currentPage := 1;
      totalBlocks := 0;
      votes := [];
      filteredVotes := [];
    }

    /** fetchVotes for the current page. A failed count reads as zero; a
        failed row fetch keeps the rows shown. The search effect then runs
        over the new rows. */
    method Fetch(db: Database, countOk: bool, rowsOk: bool)
      requires Valid()
      modifies this
      ensures Valid()
      ensures totalBlocks == if countOk then |db.votes| else 0
      ensures votes == if rowsOk then PageRows(db.votes, currentPage) else old(votes)
      ensures searchQuery == old(searchQuery) && currentPage == old(currentPage)
    {
      totalBlocks := if countOk then |db.votes| else 0;
      if rowsOk {
        votes := PageRows(db.votes, currentPage);
        filteredVotes := votes;
        filteredVotes := Search(votes, searchQuery);
      }
    }

    /** Typing in the search box. */
    method SetQuery(query: string)
      requires Valid()
      modifies this
      ensures Valid()
      ensures searchQuery == query && filteredVotes == Search(votes, query)
      ensures votes == old(votes) && currentPage == old(currentPage) && totalBlocks == old(totalBlocks)
    {
      searchQuery := query;
      filteredVotes := Search(votes, query);
    }

    /** The Previous button; it exists only when there is more than one page. */
    method PreviousPage()
      requires Valid() && TotalPages(totalBlocks) > 1
      modifies this
      ensures Valid()
      ensures currentPage == PreviousOf(old(currentPage))
      ensures searchQuery == old(searchQuery) && totalBlocks == old(totalBlocks) && votes == old(votes)
    {
      currentPage := PreviousOf(currentPage);
    }

    /** The Next button; it exists only when there is more than one page. */
    method NextPage()
      requires Valid() && TotalPages(totalBlocks) > 1
      modifies this
      ensures Valid()
      ensures currentPage == NextOf(old(currentPage), TotalPages(totalBlocks))
      ensures searchQuery == old(searchQuery) && totalBlocks == old(totalBlocks) && votes == old(votes)
    {
      currentPage := NextOf(currentPage, TotalPages(totalBlocks));
    }
  }

  /** `Math.max(1, p - 1)`, the Previous button's update. */
  function PreviousOf(page: int): int {
    if page - 1 > 1 then page - 1 else 1
  }

  /** `Math.min(totalPages, p + 1)`, the Next button's update. */
  function NextOf(page: int, totalPages: int): int {
    if totalPages < page + 1 then totalPages else page + 1
  }

  /** `disabled={currentPage === 1}` */
  predicate PreviousDisabled(page: int) {
    page == 1
  }

  /** `disabled={currentPage === totalPages}` */
  predicate NextDisabled(page: int, totalPages: int) {
    page == totalPages
  }

  /** Within the page range, a button is enabled exactly when pressing it
      changes the page, and pressing it keeps the page in range. */
  lemma ButtonsEnabledWhenTheyMove(page: int, totalPages: nat)
    requires 1 <= page <= totalPages
    ensures !PreviousDisabled(page) <==> PreviousOf(page) != page
    ensures !NextDisabled(page, totalPages) <==> NextOf(page, totalPages) != page
    ensures 1 <= PreviousOf(page) <= totalPages && 1 <= NextOf(page, totalPages) <= totalPages
  {
  }

  /** An enabled Next followed by Previous, or an enabled Previous followed
      by Next, comes back to the same page. */
  lemma ButtonsUndoEachOther(page: int, totalPages: nat)
    requires 1 <= page <= totalPages
    ensures !NextDisabled(page, totalPages) ==> PreviousOf(NextOf(page, totalPages)) == page
    ensures !PreviousDisabled(page) ==> NextOf(PreviousOf(page), totalPages) == page
  {
  }
}
