/** The folder ids every part agrees on (`shared/folders.ts`). */
module Folders {
  const INBOX := "inbox"
  const SCREENER := "screener"
  const DRAFT := "draft"
  const ARCHIVE := "archive"
  const SCREENED_OUT := "screened_out"

  const SYSTEM_FOLDER_IDS: set<string> := {
    INBOX, SCREENER, "promotions", "updates", "sent", DRAFT, ARCHIVE, "spam", SCREENED_OUT, "trash"
  }
}
