/** The tables of the install-command parser. */
module SupplyTables {
  datatype Pattern = Pattern(prefix: string, manager: string)

  // In the order in which they are tried.
  const INSTALL_PATTERNS: seq<Pattern> := [
    Pattern("npm install", "npm"),
    Pattern("npm i ", "npm"),
    Pattern("yarn add", "yarn"),
    Pattern("pnpm add", "pnpm"),
    Pattern("pip install", "pip"),
    Pattern("pip3 install", "pip"),
    Pattern("cargo add", "cargo"),
    Pattern("go get", "go"),
    Pattern("gem install", "gem"),
    Pattern("brew install", "brew"),
    Pattern("apt install", "apt"),
    Pattern("apt-get install", "apt"),
    Pattern("npx ", "npx")
  ]

  const REGISTRIES: map<string, string> := map[
    "npm" := "npmjs.org",
    "yarn" := "npmjs.org",
    "pnpm" := "npmjs.org",
    "npx" := "npmjs.org",
    "pip" := "pypi.org",
    "cargo" := "crates.io",
    "go" := "proxy.golang.org",
    "gem" := "rubygems.org",
    "brew" := "formulae.brew.sh",
    "apt" := "apt"
  ]

  const SKIP_FLAGS := {
    "--save-dev", "--global", "-g", "--break-system-packages", "--no-cache-dir", "--quiet", "-q", "-U",
    "--upgrade", "-y", "--yes", "--force", "-D", "--dev", "--save", "--save-exact", "--production",
    "--legacy-peer-deps", "--no-optional", "--no-default-features", "--optional", "--user", "--system"
  }

  const FLAGS_WITH_VALUES := {
    "--index-url", "--extra-index-url", "-i", "--trusted-host", "--constraint", "-c", "--config-settings",
    "--features", "--platform", "--implementation", "--python-version", "--target", "-t", "--prefix",
    "--root"
  }

  const SHELL_NOISE := {
    "tail", "head", "grep", "cat", "echo", "wc", "tee", "sort", "uniq", "xargs", "sed", "awk", "tr", "true",
    "false", "test", "sleep", "|", "||", "&&", ";", "\\", "2>&1", "2>/dev/null", ">", ">>", "python3",
    "python", "python3.12", "python3.14", "python3.11", "pip", "pip3", "install", "docker-compose", "docker",
    "exec", "-T", "source", "activate", "cd", "mkdir", "rm", "cp", "mv", "chmod", "chown", "sudo", "sh", "-c",
    "bash", "done", "user-local", "user", "local", "global", "system", "start", "enable", "service",
    "restart", "status", "stop", "daemon-reload", "systemctl"
  }

  const SKIP_WORDS := {
    "to", "for", "and", "or", "the", "in", "on", "at", "by", "up", "is", "it", "no", "do", "if", "of", "as",
    "so", "we", "an", "be", "he", "me", "my", "load", "gate", "quality", "scripts", "tests", "build",
    "install", "run", "test", "check", "set", "get", "all", "new", "use", "add", "api", "app", "bin", "lib",
    "src", "out", "log", "env", "dev", "opt", "var", "tmp", "not", "but", "bi", "py", "go", "sh", "ok", "os",
    "re", "id"
  }
}
