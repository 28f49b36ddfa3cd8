/** Steam store constants shared by both revisions. */
module Steam {
  import opened Wrappers
  import opened DotNet

  const StoreUrlPrefix := "https://store.steampowered.com/app/"

  /** `string.Format("https://store.steampowered.com/app/{0}", appId)`, which is
      also the interpolation `$"https://store.steampowered.com/app/{AppId}"`:
      a null app id formats as nothing. */
  function StoreUrlFor(appId: NString): (url: string)
    ensures |url| >= |StoreUrlPrefix| && url[..|StoreUrlPrefix|] == StoreUrlPrefix
    ensures url[|StoreUrlPrefix|..] == appId.GetOr("")
  {
    StoreUrlPrefix + appId.GetOr("")
  }

  /** The app id a store page URL points at. */
  function AppIdOfStoreUrl(url: string): (r: NString)
    ensures r.Some? <==> |url| >= |StoreUrlPrefix| && url[..|StoreUrlPrefix|] == StoreUrlPrefix
  {
    if |url| >= |StoreUrlPrefix| && url[..|StoreUrlPrefix|] == StoreUrlPrefix then
      Some(url[|StoreUrlPrefix|..])
    else
      None
  }

  /** The store URL determines the app id it was built from. */
  lemma StoreUrlRoundTrip(appId: string)
    ensures AppIdOfStoreUrl(StoreUrlFor(Some(appId))) == Some(appId)
  {
  }
}
