/** The startup check on the configured marketplace repository URL. */
module MarketplaceURL {
  import opened Strings

  datatype URLVerdict = Accepted | EmbedsCredentials | Unparseable

  /** parses is whether the URL parser accepts the text. */
  function CheckMarketplaceGitURL(raw: string, parses: bool): URLVerdict {
    var sep := Index(raw, "://");
    if sep < 0 then Accepted
    else if exists i :: sep + 3 <= i < |raw| && raw[i] == '@' then EmbedsCredentials
    else if !parses then Unparseable
    else Accepted
  }
}
