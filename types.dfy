/**
 * Records shared by several components: the question/answer/keyword triple
 * that the widget matches against, that the crawl route generates and that
 * the dashboard dialogs edit (the `Question` interface of lib/types.ts
 * without its database bookkeeping columns).
 */
module Types {

  /** One knowledge-base entry. */
  datatype QA = QA(question: string, answer: string, keywords: seq<string>)
}
