/** The platform names and prefixes nobody can rent
    (packages/core/src/domain-rentals.ts, the two tables and their test). */
module ReservedNames {
  const RESERVED_NAMES: seq<string> := [
    "www", "app", "api", "admin", "dashboard", "auth", "login", "logout", "sso",
    "apps", "preview", "console", "resources", "registry", "registry-auth",
    "logs", "metrics", "status", "health", "traefik", "grafana", "prometheus",
    "mail", "smtp", "imap", "pop", "pop3", "ftp", "ssh", "ns", "ns1", "ns2",
    "autoconfig", "autodiscover", "webmail", "webhook", "webhooks", "git",
    "cdn", "static", "assets", "docs", "help", "support", "localhost"
  ]

  const RESERVED_PREFIXES: seq<string> := ["apps--", "preview--", "console--", "resources--", "xn--"]

  predicate HasReservedPrefix(name: string) {
    exists i :: 0 <= i < |RESERVED_PREFIXES| && RESERVED_PREFIXES[i] <= name
  }

  predicate ReservedName(name: string, configured: seq<string>) {
    name in RESERVED_NAMES || name in configured || HasReservedPrefix(name)
  }

  /** Nothing under a zone of the platform, and no punycode name, can be rented. */
  lemma ZonesReserved(zone: string, rest: string, configured: seq<string>)
    requires zone == "apps--" || zone == "preview--" || zone == "console--" || zone == "resources--" || zone == "xn--"
    ensures ReservedName(zone + rest, configured)
  {
    assert zone <= zone + rest;
    assert RESERVED_PREFIXES[0] == zone || RESERVED_PREFIXES[1] == zone || RESERVED_PREFIXES[2] == zone
           || RESERVED_PREFIXES[3] == zone || RESERVED_PREFIXES[4] == zone;
  }
}
