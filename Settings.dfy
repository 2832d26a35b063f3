/**
 * The proxy keys `inject_vscode_settings` writes into the instance's VS Code
 * `User/settings.json`.
 */
module Settings {
  import opened FileSystem

  const ProxyKey := "http.proxy"
  const StrictSslKey := "http.proxyStrictSSL"
  const SupportKey := "http.proxySupport"

  /** The document after `content["http.proxy"] = proxy_url`,
      `content["http.proxyStrictSSL"] = False` and `content["http.proxySupport"] = "on"`. */
  function WithProxy(content: map<string, Json>, proxy: string): map<string, Json> {
    content[ProxyKey := JString(proxy)][StrictSslKey := JBool(false)][SupportKey := JString("on")]
  }

  /** The merge sets the three proxy keys, keeps every other key with its value, and adds
      no key besides the three. */
  lemma WithProxySpec(content: map<string, Json>, proxy: string)
    ensures var r := WithProxy(content, proxy);
      r[ProxyKey] == JString(proxy) && r[StrictSslKey] == JBool(false) && r[SupportKey] == JString("on")
      && r.Keys == content.Keys + {ProxyKey, StrictSslKey, SupportKey}
      && forall k :: k in content && k !in {ProxyKey, StrictSslKey, SupportKey} ==> r[k] == content[k]
  {
  }

  /** Merging twice is merging once with the later proxy. */
  lemma WithProxyTwice(content: map<string, Json>, p1: string, p2: string)
    ensures WithProxy(WithProxy(content, p1), p2) == WithProxy(content, p2)
  {
  }
}
