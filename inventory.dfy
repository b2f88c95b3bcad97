/**
 * The core plugins service's inventory read: `pluginsServer` keeps the list of
 * plugins it was built with and `GetConfiguredPlugins` hands that list back.
 */
module Inventory {
  import opened Wrappers
  import opened Plugins

  /** `pluginsServer`, reduced to the plugin list it was built with. */
  datatype PluginsServer = PluginsServer(plugins: seq<Plugin>)

  /** The request carries no fields. */
  datatype GetConfiguredPluginsRequest = GetConfiguredPluginsRequest

  datatype GetConfiguredPluginsResponse = GetConfiguredPluginsResponse(plugins: seq<Plugin>)

  /** A gRPC status, the error side of an RPC; the inventory read never returns one. */
  datatype Status = Status(message: string)

  /**
   * `GetConfiguredPlugins`: succeeds on every request and answers with the
   * configured plugins, equal under `pluginEqual` position by position.
   */
  function GetConfiguredPlugins(server: PluginsServer, request: GetConfiguredPluginsRequest)
    : (r: Result<GetConfiguredPluginsResponse, Status>)
    ensures r.Success?
    ensures PluginsEqual(server.plugins, r.value.plugins)
  {
    Success(GetConfiguredPluginsResponse(server.plugins))
  }

  /**
   * The answer is the configuration verbatim: same length, same order, same
   * names and versions, so the same multiset of descriptors.
   */
  lemma InventoryEchoesConfiguration(server: PluginsServer, request: GetConfiguredPluginsRequest)
    ensures var got := GetConfiguredPlugins(server, request).value.plugins;
      && got == server.plugins
      && |got| == |server.plugins|
      && multiset(got) == multiset(server.plugins)
  {
    PluginsEqualIsIdentity(server.plugins, GetConfiguredPlugins(server, request).value.plugins);
  }
}
